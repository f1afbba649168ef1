/** All paths through a body at once: for every local whether some run has it
    live, and whether some run has it gone. This is exact: what is followed finds
    a fault if and only if some run has one. */
module PathAnalysis {
  import opened Borrow

  /** What runs that get to a point may find of a local. */
  datatype May = May(live: bool, gone: bool)

  datatype Paths = Paths(scopes: seq<Scope<May>>, reached: bool)

  /** The paths after some code, and whether no fault was met in it. */
  datatype Traced = Traced(state: Paths, ok: bool)

  const Added := May(true, false)
  const Moved := May(false, true)

  predicate Alike<S, T>(a: seq<Scope<S>>, b: seq<Scope<T>>) {
    && |a| == |b|
    && forall i :: 0 <= i < |a| ==> a[i].order == b[i].order && a[i].vars.Keys == b[i].vars.Keys
  }

  predicate AlikeBelow<S, T>(a: seq<Scope<S>>, b: seq<Scope<T>>, n: nat) {
    && |a| == |b| && n <= |a|
    && forall i :: 0 <= i < n ==> a[i].order == b[i].order && a[i].vars.Keys == b[i].vars.Keys
  }

  // ---------------------------------------------------------------
  // joining paths
  // ---------------------------------------------------------------

  function Either(a: May, b: May): May {
    May(a.live || b.live, a.gone || b.gone)
  }

  function JoinScope(a: Scope<May>, b: Scope<May>): Scope<May> {
    a.(vars := map x | x in a.vars :: if x in b.vars then Either(a.vars[x], b.vars[x]) else a.vars[x])
  }

  function Join(a: Paths, b: Paths): (r: Paths)
    ensures Alike(a.scopes, b.scopes) ==> Alike(a.scopes, r.scopes)
    ensures r.reached == (a.reached || b.reached)
  {
    if !a.reached then b
    else if !b.reached || |a.scopes| != |b.scopes| then a
    else Paths(seq(|a.scopes|, i requires 0 <= i < |a.scopes| => JoinScope(a.scopes[i], b.scopes[i])), true)
  }

  /** How many of the two possibilities of each local are still missing. */
  function Absent(m: Scope<May>): nat {
    |set x | x in m.vars && !m.vars[x].live| + |set x | x in m.vars && !m.vars[x].gone|
  }

  function Missing(scopes: seq<Scope<May>>): nat {
    if scopes == [] then 0 else Absent(scopes[|scopes| - 1]) + Missing(scopes[..|scopes| - 1])
  }

  lemma FewerMembers(a: set<Local>, b: set<Local>)
    requires a <= b
    ensures |a| <= |b| && (|a| == |b| ==> a == b)
  {
    assert b == a + (b - a);
    assert |b| == |a| + |b - a|;
  }

  lemma AbsentJoin(a: Scope<May>, b: Scope<May>)
    ensures Absent(JoinScope(a, b)) <= Absent(a)
    ensures Absent(JoinScope(a, b)) == Absent(a) ==> JoinScope(a, b) == a
  {
    var j := JoinScope(a, b);
    var l, l' := set x | x in a.vars && !a.vars[x].live, set x | x in j.vars && !j.vars[x].live;
    var g, g' := set x | x in a.vars && !a.vars[x].gone, set x | x in j.vars && !j.vars[x].gone;
    FewerMembers(l', l);
    FewerMembers(g', g);
    if Absent(j) == Absent(a) {
      assert l == l' && g == g';
      forall x | x in a.vars ensures j.vars[x] == a.vars[x] {
        assert x in l <==> x in l';
        assert x in g <==> x in g';
      }
      assert j.vars == a.vars;
    }
  }

  lemma {:induction false} MissingLess(a: seq<Scope<May>>, b: seq<Scope<May>>)
    requires |a| == |b|
    requires forall i :: 0 <= i < |a| ==> Absent(b[i]) <= Absent(a[i]) && (Absent(b[i]) == Absent(a[i]) ==> b[i] == a[i])
    ensures Missing(b) <= Missing(a) && (Missing(b) == Missing(a) ==> a == b)
  {
    hide Absent;
    if a != [] {
      var n := |a| - 1;
      MissingLess(a[..n], b[..n]);
      assert a == a[..n] + [a[n]] && b == b[..n] + [b[n]];
    }
  }

  /** A join that changes something leaves less missing. */
  lemma JoinFills(a: Paths, b: Paths)
    requires a.reached && Join(a, b) != a
    ensures Missing(Join(a, b).scopes) < Missing(a.scopes)
  {
    var j := Join(a, b).scopes;
    assert |j| == |a.scopes|;
    forall i | 0 <= i < |j| ensures Absent(j[i]) <= Absent(a.scopes[i]) && (Absent(j[i]) == Absent(a.scopes[i]) ==> j[i] == a.scopes[i]) {
      AbsentJoin(a.scopes[i], b.scopes[i]);
    }
    MissingLess(a.scopes, j);
  }

  // ---------------------------------------------------------------
  // following all paths
  // ---------------------------------------------------------------

  function PushPaths(a: Paths): Paths {
    a.(scopes := a.scopes + [Scope(map[], [])])
  }

  function PopPaths(a: Paths): (r: Paths)
    requires a.scopes != []
  {
    a.(scopes := a.scopes[..|a.scopes| - 1])
  }

  function Declare(a: Paths, binds: seq<Local>): (r: Paths)
    requires a.scopes != []
    ensures |r.scopes| == |a.scopes| && r.reached == a.reached
    ensures forall i :: 0 <= i < |a.scopes| - 1 ==> r.scopes[i] == a.scopes[i]
  {
    assert forall i :: 0 <= i < |a.scopes| - 1 ==> Define(a.scopes, binds, Added)[i] == Define(a.scopes, binds, Added)[..|a.scopes| - 1][i];
    a.(scopes := Define(a.scopes, binds, Added))
  }

  function EnterPaths(a: Paths, binds: seq<Local>): (r: Paths)
    ensures |r.scopes| == |a.scopes| + 1 && r.reached == a.reached
    ensures forall i :: 0 <= i < |a.scopes| ==> r.scopes[i] == a.scopes[i]
  {
    assert PushPaths(a).scopes[..|a.scopes|] == a.scopes;
    Declare(PushPaths(a), binds)
  }

  lemma PopAlike(a: Paths, binds: seq<Local>, b: Paths)
    requires Alike(EnterPaths(a, binds).scopes, b.scopes)
    ensures Alike(a.scopes, PopPaths(b).scopes)
  {
  }

  function Nowhere(a: Paths): Paths {
    a.(reached := false)
  }

  function Mark(x: Local, m: May, a: Paths): (r: Paths)
    ensures Alike(a.scopes, r.scopes) && r.reached == a.reached
  {
    match Find(a.scopes, x)
    case None => a
    case Some(i) => a.(scopes := Put(a.scopes, i, x, m))
  }

  predicate MayBeGone(x: Local, a: Paths) {
    var at := Find(a.scopes, x);
    at.Some? && a.scopes[at.value].vars[x].gone
  }

  function MayOwn(m: Scope<May>): set<Local> {
    set x | x in m.vars && !x.copy && m.vars[x].live
  }

  function MayOwnAll(scopes: seq<Scope<May>>): seq<Local> {
    if scopes == [] then []
    else
      var n := |scopes| - 1;
      Due(scopes[n].order, MayOwn(scopes[n])) + MayOwnAll(scopes[..n])
  }

  /** Of everything declared here it is known whether it is live. */
  predicate Settled(m: Scope<May>) {
    forall x :: x in m.order && x in m.vars && !x.copy ==> !(m.vars[x].live && m.vars[x].gone)
  }

  predicate AllSettled(scopes: seq<Scope<May>>) {
    forall i :: 0 <= i < |scopes| ==> Settled(scopes[i])
  }

  /** Follows all paths through `e`. Code that no path gets to is not followed. */
  function Trace(e: Expr, take: bool, strict: bool, a: Paths): (r: Traced)
    ensures Alike(a.scopes, r.state.scopes)
    decreases e, 2, 0
  {
    if !a.reached then Traced(a, true)
    else match e
      case Lit => Traced(a, true)
      case Var(x) => Traced(if take && !x.copy then Mark(x, Moved, a) else a, !MayBeGone(x, a))
      case Block(body, drops) =>
        var b := TraceStmts(body, take, strict, PushPaths(a));
        var top := b.state.scopes[|a.scopes|];
        Traced(PopPaths(b.state), b.ok && (strict && b.state.reached ==> Settled(top) && drops == Due(top.order, MayOwn(top))))
      case If(cond, thn, els) =>
        var c := Trace(cond, false, strict, a);
        var t := Trace(thn, take, strict, c.state);
        var f := Trace(els, take, strict, c.state);
        Traced(Join(t.state, f.state), c.ok && t.ok && f.ok)
      case Match(scrutinee, copy, arms) =>
        var c := Trace(scrutinee, !copy, strict, a);
        var r := TraceArms(arms, take, strict, c.state);
        Traced(r.state, c.ok && r.ok)
      case Loop(_) =>
        var h := Head(e, strict, a);
        Traced(Nowhere(h), Round(e, strict, h).ok)
      case While(cond, _) =>
        var h := Head(e, strict, a);
        Traced(Trace(cond, false, strict, h).state, Round(e, strict, h).ok)
      case Return(value, drops) =>
        var v := Trace(value, true, strict, a);
        Traced(Nowhere(v.state), v.ok && (strict && v.state.reached ==> AllSettled(v.state.scopes) && drops == MayOwnAll(v.state.scopes)))
      case Assign(x, value) =>
        var v := Trace(value, true, strict, a);
        Traced(Mark(x, Added, v.state), v.ok)
      case Apply(args, panics) =>
        var r := TraceArgs(args, strict, a);
        Traced(if panics then Nowhere(r.state) else r.state, r.ok)
  }

  /** Once round a loop. */
  function Round(e: Expr, strict: bool, a: Paths): (r: Traced)
    requires e.Loop? || e.While?
    ensures Alike(a.scopes, r.state.scopes)
    decreases e, 0, 0
  {
    if e.Loop? then Trace(e.body_, false, strict, a)
    else
      var c := Trace(e.cond, false, strict, a);
      var b := Trace(e.body_, false, strict, c.state);
      Traced(b.state, c.ok && b.ok)
  }

  /** The paths that get to the head of a loop, over any number of rounds; those up
      to the first fault if there is one. */
  function Head(e: Expr, strict: bool, a: Paths): (h: Paths)
    requires (e.Loop? || e.While?) && a.reached
    ensures Alike(a.scopes, h.scopes) && h.reached
    decreases e, 1, Missing(a.scopes)
  {
    var r := Round(e, strict, a);
    var next := Join(a, r.state);
    if !r.ok || next == a then a
    else
      JoinFills(a, r.state);
      Head(e, strict, next)
  }

  function TraceStmts(st: Stmts, take: bool, strict: bool, a: Paths): (r: Traced)
    requires a.scopes != []
    ensures AlikeBelow(a.scopes, r.state.scopes, |a.scopes| - 1)
    decreases st, 2, 0
  {
    if !a.reached then Traced(a, true)
    else match st
      case Tail(tail) => Trace(tail, take, strict, a)
      case Let(binds, copy, value, rest) =>
        var v := Trace(value, !copy, strict, a);
        var r := TraceStmts(rest, take, strict, Declare(v.state, binds));
        Traced(r.state, v.ok && r.ok)
      case Do(e, copy, rest) =>
        var v := Trace(e, !copy, strict, a);
        var r := TraceStmts(rest, take, strict, v.state);
        Traced(r.state, v.ok && r.ok)
  }

  function TraceArgs(args: Args, strict: bool, a: Paths): (r: Traced)
    ensures Alike(a.scopes, r.state.scopes)
    decreases args, 2, 0
  {
    if !a.reached then Traced(a, true)
    else match args
      case NoArgs => Traced(a, true)
      case Arg(e, taken, rest) =>
        var v := Trace(e, taken, strict, a);
        var r := TraceArgs(rest, strict, v.state);
        Traced(r.state, v.ok && r.ok)
  }

  /** A later arm is tried where a pattern did not fit, and where a guard failed. */
  function TraceArms(arms: Arms, take: bool, strict: bool, a: Paths): (r: Traced)
    ensures Alike(a.scopes, r.state.scopes)
    decreases arms, 2, 0
  {
    if !a.reached then Traced(a, true)
    else match arms
      case NoArms => Traced(Nowhere(a), true)
      case Arm(binds, guard, body, rest) =>
        var g := Trace(guard, false, strict, EnterPaths(a, binds));
        var b := Trace(body, take, strict, g.state);
        PopAlike(a, binds, g.state);
        PopAlike(a, binds, b.state);
        var r := TraceArms(rest, take, strict, Join(a, PopPaths(g.state)));
        Traced(Join(PopPaths(b.state), r.state), g.ok && b.ok && r.ok)
  }
}
