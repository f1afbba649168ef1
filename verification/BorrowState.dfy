/** The checker's own state, updated in place while it walks a body, and the
    diagnostics it reports: it computes what the analysis is defined to be. */
module OwnershipChecker {
  import opened Borrow

  class Reporter {
    var errors: nat

    constructor ()
      ensures errors == 0
    {
      errors := 0;
    }

    method Report()
      modifies this
      ensures errors == old(errors) + 1
    {
      errors := errors + 1;
    }
  }

  /** The largest move count any branch has for `x`. */
  method MaxMoveCount(branches: seq<State>, i: nat, x: Local) returns (m: nat)
    ensures m == MaxCount(branches, i, x)
  {
    m := 0;
    var k := |branches|;
    while k > 0
      invariant 0 <= k <= |branches|
      invariant m == MaxCount(branches[k..], i, x)
    {
      k := k - 1;
      assert branches[k..][1..] == branches[k + 1..];
      if CountIn(branches[k], i, x) > m {
        m := CountIn(branches[k], i, x);
      }
    }
  }

  /** How many of the branches that can be passed have moved `x`, and how many
      of those there are. */
  method CountMoved(branches: seq<State>, i: nat, x: Local) returns (moved: nat, open: nat)
    ensures moved <= open
    ensures open == 0 <==> !AnyReachable(branches)
    ensures moved == open <==> AllMoved(branches, i, x)
    ensures moved == 0 <==> NoneMoved(branches, i, x)
  {
    moved, open := 0, 0;
    var k := 0;
    while k < |branches|
      invariant 0 <= k <= |branches| && moved <= open
      invariant open == 0 <==> forall j :: 0 <= j < k ==> !branches[j].reachable
      invariant moved == open <==> forall j :: 0 <= j < k && branches[j].reachable ==> MovedIn(branches[j], i, x)
      invariant moved == 0 <==> forall j :: 0 <= j < k && branches[j].reachable ==> !MovedIn(branches[j], i, x)
    {
      if branches[k].reachable {
        open := open + 1;
        if MovedIn(branches[k], i, x) {
          moved := moved + 1;
        }
      }
      k := k + 1;
    }
  }

  /** A scope with every move count raised to the largest of the branches. */
  function Counted(before: Scope<Binding>, branches: seq<State>, i: nat): Scope<Binding> {
    before.(vars := map x | x in before.vars :: before.vars[x].(count := MaxCount(branches, i, x)))
  }

  method MergeCounts(before: Scope<Binding>, branches: seq<State>, i: nat) returns (r: Scope<Binding>)
    ensures r == Counted(before, branches, i)
  {
    r := before;
    var names := before.vars.Keys;
    while names != {}
      invariant names <= before.vars.Keys && r.order == before.order && r.vars.Keys == before.vars.Keys
      invariant forall x :: x in before.vars ==>
        r.vars[x] == if x in names then before.vars[x] else before.vars[x].(count := MaxCount(branches, i, x))
      decreases |names|
    {
      var x :| x in names;
      var m := MaxMoveCount(branches, i, x);
      r := r.(vars := r.vars[x := r.vars[x].(count := m)]);
      names := names - {x};
    }
  }

  method MergeMoves(before: Scope<Binding>, target: Scope<Binding>, branches: seq<State>, i: nat, reporter: Reporter) returns (r: Scope<Binding>)
    requires AnyReachable(branches) && target == Counted(before, branches, i)
    modifies reporter
    ensures r == MergedScope(before, branches, i)
    ensures reporter.errors >= old(reporter.errors)
    ensures reporter.errors == old(reporter.errors) <==> forall x :: x in before.vars ==> AllMoved(branches, i, x) || NoneMoved(branches, i, x)
  {
    hide AnyReachable, AllMoved, NoneMoved, MaxCount;
    r := target;
    var names := before.vars.Keys;
    while names != {}
      invariant names <= before.vars.Keys && r.order == before.order && r.vars.Keys == before.vars.Keys
      invariant forall x :: x in before.vars ==>
        r.vars[x] == if x in names then target.vars[x] else MergedBinding(before.vars[x], branches, i, x)
      invariant reporter.errors >= old(reporter.errors)
      invariant reporter.errors == old(reporter.errors) <==>
        forall x :: x in before.vars && x !in names ==> AllMoved(branches, i, x) || NoneMoved(branches, i, x)
      decreases |names|
    {
      var x :| x in names;
      var moved, open := CountMoved(branches, i, x);
      if moved != 0 && moved != open {
        reporter.Report();
      }
      if moved == open {
        r := r.(vars := r.vars[x := r.vars[x].(moved := true)]);
      } else if moved == 0 {
        r := r.(vars := r.vars[x := r.vars[x].(moved := false)]);
      }
      names := names - {x};
    }
  }

  /** The droppable locals of one scope. */
  method DroppableFromScope(scope: Scope<Binding>) returns (drops: seq<Local>)
    ensures drops == Due(scope.order, Live(scope))
  {
    drops := [];
    var k := |scope.order|;
    assert scope.order[..k] == scope.order;
    while k > 0
      invariant 0 <= k <= |scope.order|
      invariant Due(scope.order, Live(scope)) == drops + Due(scope.order[..k], Live(scope))
    {
      assert scope.order[..k][..k - 1] == scope.order[..k - 1];
      k := k - 1;
      var x := scope.order[k];
      if x in scope.vars && !x.copy && !scope.vars[x].moved {
        drops := drops + [x];
      }
    }
  }

  method DroppableUpTo(scopes: seq<Scope<Binding>>) returns (drops: seq<Local>)
    ensures drops == LiveAll(scopes)
  {
    drops := [];
    var k := |scopes|;
    assert scopes[..k] == scopes;
    while k > 0
      invariant 0 <= k <= |scopes|
      invariant LiveAll(scopes) == drops + LiveAll(scopes[..k])
    {
      assert scopes[..k][..k - 1] == scopes[..k - 1];
      k := k - 1;
      var more := DroppableFromScope(scopes[k]);
      drops := drops + more;
    }
  }

  /** Whether anything bound before the loop is moved in it and left moved. */
  method CheckLoopEnd(before: State, after: State, reporter: Reporter)
    modifies reporter
    ensures reporter.errors >= old(reporter.errors)
    ensures reporter.errors == old(reporter.errors) <==> LoopOk(before, after)
  {
    var i := 0;
    while i < |before.scopes|
      invariant 0 <= i <= |before.scopes| && reporter.errors >= old(reporter.errors)
      invariant reporter.errors == old(reporter.errors) <==> forall k, x :: 0 <= k < i && x in before.scopes[k].vars ==> LoopOkAt(before, after, k, x)
    {
      var names := before.scopes[i].vars.Keys;
      while names != {}
        invariant names <= before.scopes[i].vars.Keys && reporter.errors >= old(reporter.errors)
        invariant reporter.errors == old(reporter.errors) <==>
          && (forall k, x :: 0 <= k < i && x in before.scopes[k].vars ==> LoopOkAt(before, after, k, x))
          && (forall x :: x in before.scopes[i].vars && x !in names ==> LoopOkAt(before, after, i, x))
        decreases |names|
      {
        var x :| x in names;
        if CountIn(after, i, x) > before.scopes[i].vars[x].count && MovedIn(after, i, x) {
          reporter.Report();
        }
        names := names - {x};
      }
      i := i + 1;
    }
    assert LoopOk(before, after) <==> forall k, x :: 0 <= k < |before.scopes| && x in before.scopes[k].vars ==> LoopOkAt(before, after, k, x);
  }

  predicate LoopOkAt(before: State, after: State, i: nat, x: Local)
    requires i < |before.scopes| && x in before.scopes[i].vars
  {
    !(CountIn(after, i, x) > before.scopes[i].vars[x].count && MovedIn(after, i, x))
  }

  class OwnershipState {
    var scopes: seq<Scope<Binding>>
    var reachable: bool

    constructor (from: State)
      ensures Value() == from
    {
      scopes, reachable := from.scopes, from.reachable;
    }

    function Value(): State
      reads this
    {
      State(scopes, reachable)
    }

    method PushScope()
      modifies this
      ensures Value() == Push(old(Value()))
    {
      scopes := scopes + [Scope(map[], [])];
    }

    method PopScope()
      requires scopes != []
      modifies this
      ensures Value() == Pop(old(Value()))
    {
      scopes := scopes[..|scopes| - 1];
    }

    method DefinePattern(binds: seq<Local>)
      requires scopes != []
      modifies this
      ensures Value() == old(Value()).(scopes := Define(old(scopes), binds, Fresh))
    {
      var k := 0;
      while k < |binds|
        invariant 0 <= k <= |binds| && scopes != [] && reachable == old(reachable)
        invariant Define(old(scopes), binds, Fresh) == Define(scopes, binds[k..], Fresh)
      {
        var n := |scopes| - 1;
        scopes := scopes[n := Scope(scopes[n].vars[binds[k] := Fresh], scopes[n].order + [binds[k]])];
        assert binds[k..][1..] == binds[k + 1..];
        k := k + 1;
      }
    }

    /** A mention of a local: checked, and consumed when it is taken. */
    method MentionLocal(x: Local, take: bool, reporter: Reporter)
      modifies this, reporter
      ensures Value() == Mention(x, take, old(Value())).state
      ensures reporter.errors >= old(reporter.errors)
      ensures reporter.errors == old(reporter.errors) <==> Mention(x, take, old(Value())).ok
    {
      var i := Find(scopes, x);
      if i.Some? {
        var binding := scopes[i.value].vars[x];
        if binding.moved {
          reporter.Report();
        }
        if take && !x.copy {
          scopes := Put(scopes, i.value, x, Binding(true, binding.count + 1));
        }
      }
    }

    method MergeManyBranchStates(before: State, branches: seq<State>, reporter: Reporter)
      requires Value() == before
      modifies this, reporter
      ensures Value() == Merge(before, branches)
      ensures reporter.errors >= old(reporter.errors)
      ensures branches != [] ==> (reporter.errors == old(reporter.errors) <==> Agree(before, branches))
      ensures branches == [] ==> reporter.errors == old(reporter.errors)
    {
      if branches == [] {
        return;
      }
      var i := 0;
      while i < |before.scopes|
        invariant 0 <= i <= |before.scopes| == |scopes| && reachable == before.reachable
        invariant forall k :: 0 <= k < |scopes| ==> scopes[k] == if k < i then Counted(before.scopes[k], branches, k) else before.scopes[k]
        invariant reporter.errors == old(reporter.errors)
      {
        var s := MergeCounts(before.scopes[i], branches, i);
        scopes := scopes[i := s];
        i := i + 1;
      }
      var open := exists b :: b in branches && b.reachable;
      reachable := open;
      if open {
        i := 0;
        while i < |before.scopes|
          invariant 0 <= i <= |before.scopes| == |scopes| && reachable
          invariant forall k :: 0 <= k < |scopes| ==>
            scopes[k] == if k < i then MergedScope(before.scopes[k], branches, k) else Counted(before.scopes[k], branches, k)
          invariant reporter.errors >= old(reporter.errors)
          invariant reporter.errors == old(reporter.errors) <==>
            forall k, x :: 0 <= k < i && x in before.scopes[k].vars ==> AllMoved(branches, k, x) || NoneMoved(branches, k, x)
        {
          var s := MergeMoves(before.scopes[i], scopes[i], branches, i, reporter);
          scopes := scopes[i := s];
          i := i + 1;
        }
      } else {
        forall k | 0 <= k < |scopes| ensures scopes[k] == MergedScope(before.scopes[k], branches, k) {
          assert scopes[k].vars == MergedScope(before.scopes[k], branches, k).vars;
        }
      }
      assert scopes == Merge(before, branches).scopes;
    }

    /** Walks an expression whose value is taken or only read. */
    method VisitExpr(e: Expr, take: bool, reporter: Reporter) returns (node: Expr)
      modifies this, reporter
      ensures node == Visit(e, take, old(Value())).node && Value() == Visit(e, take, old(Value())).state
      ensures reporter.errors >= old(reporter.errors)
      ensures reporter.errors == old(reporter.errors) <==> Visit(e, take, old(Value())).ok
      decreases e, 1
    {
      match e
      case Lit => node := e;
      case Var(x) =>
        MentionLocal(x, take, reporter);
        node := e;
      case Block(_, _) => node := VisitBlock(e, take, reporter);
      case If(_, _, _) => node := VisitIf(e, take, reporter);
      case Match(_, _, _) => node := VisitMatch(e, take, reporter);
      case Loop(body) =>
        var body' := VisitLoopBody(body, reporter);
        node := Loop(body');
      case While(cond, body) =>
        var cond' := VisitExpr(cond, false, reporter);
        var body' := VisitLoopBody(body, reporter);
        node := While(cond', body');
      case Return(value, _) =>
        var value' := VisitExpr(value, true, reporter);
        var drops := DroppableUpTo(scopes);
        reachable := false;
        node := Return(value', drops);
      case Assign(x, value) =>
        var value' := VisitExpr(value, true, reporter);
        var i := Find(scopes, x);
        if i.Some? {
          scopes := Put(scopes, i.value, x, scopes[i.value].vars[x].(moved := false));
        }
        node := Assign(x, value');
      case Apply(args, panics) =>
        var args' := VisitOperands(args, reporter);
        if panics {
          reachable := false;
        }
        node := Apply(args', panics);
    }

    method VisitBlock(e: Expr, take: bool, reporter: Reporter) returns (node: Expr)
      requires e.Block?
      modifies this, reporter
      ensures node == Visit(e, take, old(Value())).node && Value() == Visit(e, take, old(Value())).state
      ensures reporter.errors >= old(reporter.errors)
      ensures reporter.errors == old(reporter.errors) <==> Visit(e, take, old(Value())).ok
      decreases e, 0
    {
      PushScope();
      var body := VisitStatements(e.body, take, reporter);
      var drops := [];
      if reachable {
        drops := DroppableFromScope(scopes[|scopes| - 1]);
      }
      PopScope();
      node := Block(body, drops);
    }

    method VisitIf(e: Expr, take: bool, reporter: Reporter) returns (node: Expr)
      requires e.If?
      modifies this, reporter
      ensures node == Visit(e, take, old(Value())).node && Value() == Visit(e, take, old(Value())).state
      ensures reporter.errors >= old(reporter.errors)
      ensures reporter.errors == old(reporter.errors) <==> Visit(e, take, old(Value())).ok
      decreases e, 0
    {
      var cond := VisitExpr(e.cond, false, reporter);
      var before := Value();
      var thenState := new OwnershipState(before);
      var thn := thenState.VisitExpr(e.thn, take, reporter);
      var elseState := new OwnershipState(before);
      var els := elseState.VisitExpr(e.els, take, reporter);
      MergeManyBranchStates(before, [thenState.Value(), elseState.Value()], reporter);
      node := If(cond, thn, els);
    }

    method VisitMatch(e: Expr, take: bool, reporter: Reporter) returns (node: Expr)
      requires e.Match?
      modifies this, reporter
      ensures node == Visit(e, take, old(Value())).node && Value() == Visit(e, take, old(Value())).state
      ensures reporter.errors >= old(reporter.errors)
      ensures reporter.errors == old(reporter.errors) <==> Visit(e, take, old(Value())).ok
      decreases e, 0
    {
      var scrutinee := VisitExpr(e.scrutinee, !e.copy, reporter);
      var before := Value();
      var arms, branches := VisitEachArm(e.arms, take, before, reporter);
      MergeManyBranchStates(before, branches, reporter);
      node := Match(scrutinee, e.copy, arms);
    }

    /** The body is walked on a copy; the state itself stays as it was. */
    method VisitLoopBody(body: Expr, reporter: Reporter) returns (node: Expr)
      modifies reporter
      ensures node == Visit(body, false, Value()).node
      ensures reporter.errors >= old(reporter.errors)
      ensures reporter.errors == old(reporter.errors) <==> Visit(body, false, Value()).ok && LoopOk(Value(), Visit(body, false, Value()).state)
      decreases body, 2
    {
      var before := Value();
      var bodyState := new OwnershipState(before);
      node := bodyState.VisitExpr(body, false, reporter);
      CheckLoopEnd(before, bodyState.Value(), reporter);
    }

    method VisitStatements(st: Stmts, take: bool, reporter: Reporter) returns (node: Stmts)
      requires scopes != []
      modifies this, reporter
      ensures node == VisitStmts(st, take, old(Value())).node && Value() == VisitStmts(st, take, old(Value())).state
      ensures reporter.errors >= old(reporter.errors)
      ensures reporter.errors == old(reporter.errors) <==> VisitStmts(st, take, old(Value())).ok
      decreases st
    {
      if !reachable {
        return st;
      }
      match st
      case Tail(tail) =>
        var tail' := VisitExpr(tail, take, reporter);
        node := Tail(tail');
      case Let(binds, copy, value, rest) =>
        var value' := VisitExpr(value, !copy, reporter);
        DefinePattern(binds);
        var rest' := VisitStatements(rest, take, reporter);
        node := Let(binds, copy, value', rest');
      case Do(e, copy, rest) =>
        var e' := VisitExpr(e, !copy, reporter);
        var rest' := VisitStatements(rest, take, reporter);
        node := Do(e', copy, rest');
    }

    method VisitOperands(args: Args, reporter: Reporter) returns (node: Args)
      modifies this, reporter
      ensures node == VisitArgs(args, old(Value())).node && Value() == VisitArgs(args, old(Value())).state
      ensures reporter.errors >= old(reporter.errors)
      ensures reporter.errors == old(reporter.errors) <==> VisitArgs(args, old(Value())).ok
      decreases args
    {
      match args
      case NoArgs => node := args;
      case Arg(e, taken, rest) =>
        var e' := VisitExpr(e, taken, reporter);
        var rest' := VisitOperands(rest, reporter);
        node := Arg(e', taken, rest');
    }

    static method VisitEachArm(arms: Arms, take: bool, before: State, reporter: Reporter) returns (node: Arms, branches: seq<State>)
      modifies reporter
      ensures (node, branches) == (VisitArms(arms, take, before).0, VisitArms(arms, take, before).1)
      ensures reporter.errors >= old(reporter.errors)
      ensures reporter.errors == old(reporter.errors) <==> VisitArms(arms, take, before).2
      decreases arms
    {
      match arms
      case NoArms =>
        node, branches := arms, [];
      case Arm(binds, guard, body, rest) =>
        var arm := new OwnershipState(before);
        arm.PushScope();
        arm.DefinePattern(binds);
        var guard' := arm.VisitExpr(guard, false, reporter);
        var body' := arm.VisitExpr(body, take, reporter);
        arm.PopScope();
        var rest', more := VisitEachArm(rest, take, before, reporter);
        node, branches := Arm(binds, guard', body', rest'), [arm.Value()] + more;
    }
  }
}
