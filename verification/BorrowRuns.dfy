/** Putting runs together: choices that lead through one part of the code and on
    to the next. */
module PassingRuns {
  import opened Borrow

  datatype Code = Whole(e: Expr, take: bool) | Rest(st: Stmts, take: bool) | Operands(args: Args) | Cases(arms: Arms, take: bool)

  function Run(code: Code, strict: bool, choices: seq<nat>, c: seq<Scope<bool>>): Result {
    match code
    case Whole(e, take) => Exec(e, take, strict, choices, c)
    case Rest(st, take) => if c == [] then Cut else ExecStmts(st, take, strict, choices, c)
    case Operands(args) => ExecArgs(args, strict, choices, c)
    case Cases(arms, take) => ExecArms(arms, take, strict, choices, c)
  }

  /** With these choices, whatever follows, the code ends and leaves `c'`. */
  ghost predicate Passes(code: Code, strict: bool, c: seq<Scope<bool>>, way: seq<nat>, c': seq<Scope<bool>>) {
    forall rest: seq<nat> :: Run(code, strict, way + rest, c) == Next(c', rest)
  }

  /** With these choices what is left to do is the other code. */
  ghost predicate Leads(code: Code, strict: bool, c: seq<Scope<bool>>, way: seq<nat>, code': Code, c': seq<Scope<bool>>) {
    forall rest: seq<nat> :: Run(code, strict, way + rest, c) == Run(code', strict, rest, c')
  }

  lemma RunWhole(e: Expr, take: bool, strict: bool, choices: seq<nat>, c: seq<Scope<bool>>)
    ensures Run(Whole(e, take), strict, choices, c) == Exec(e, take, strict, choices, c)
  {
  }

  lemma PassesOn(code: Code, strict: bool, c: seq<Scope<bool>>, way: seq<nat>, c': seq<Scope<bool>>, rest: seq<nat>)
    requires Passes(code, strict, c, way, c')
    ensures Run(code, strict, way + rest, c) == Next(c', rest)
  {
  }

  lemma LeadsOn(code: Code, strict: bool, c: seq<Scope<bool>>, way: seq<nat>, code': Code, c': seq<Scope<bool>>, rest: seq<nat>)
    requires Leads(code, strict, c, way, code', c')
    ensures Run(code, strict, way + rest, c) == Run(code', strict, rest, c')
  {
  }

  lemma PassesThen(code: Code, strict: bool, c: seq<Scope<bool>>, way: seq<nat>, code': Code, c': seq<Scope<bool>>, way': seq<nat>, c2: seq<Scope<bool>>)
    requires Leads(code, strict, c, way, code', c') && Passes(code', strict, c', way', c2)
    ensures Passes(code, strict, c, way + way', c2)
  {
    hide Run;
    forall rest: seq<nat> ensures Run(code, strict, way + way' + rest, c) == Next(c2, rest) {
      Regroup(way, way', rest);
    }
  }

  // ----- choices

  lemma Regroup(a: seq<nat>, b: seq<nat>, c: seq<nat>)
    ensures a + b + c == a + (b + c)
  {
  }

  lemma Front(n: nat, rest: seq<nat>)
    ensures ([n] + rest)[0] == n && ([n] + rest)[1..] == rest
  {
  }

  lemma NoChoices(rest: seq<nat>)
    ensures [] + rest == rest
  {
  }

  // ----- expressions

  lemma PassesLit(take: bool, strict: bool, c: seq<Scope<bool>>)
    ensures Passes(Whole(Lit, take), strict, c, [], c)
  {
    forall rest: seq<nat> ensures Run(Whole(Lit, take), strict, [] + rest, c) == Next(c, rest) {
      NoChoices(rest);
    }
  }

  lemma PassesVar(x: Local, take: bool, strict: bool, c: seq<Scope<bool>>, c': seq<Scope<bool>>)
    requires Use(x, take, [], c) == Next(c', [])
    ensures Passes(Whole(Var(x), take), strict, c, [], c')
  {
    forall rest: seq<nat> ensures Run(Whole(Var(x), take), strict, [] + rest, c) == Next(c', rest) {
      NoChoices(rest);
      assert Exec(Var(x), take, strict, rest, c) == Use(x, take, rest, c);
    }
  }

  lemma PassesAssign(e: Expr, take: bool, strict: bool, c: seq<Scope<bool>>, way: seq<nat>, c1: seq<Scope<bool>>)
    requires e.Assign? && Passes(Whole(e.value, true), strict, c, way, c1)
    ensures Passes(Whole(e, take), strict, c, way, Fill(e.x, c1))
  {
    forall rest: seq<nat> ensures Run(Whole(e, take), strict, way + rest, c) == Next(Fill(e.x, c1), rest) {
      PassesOn(Whole(e.value, true), strict, c, way, c1, rest);
    }
  }

  lemma PassesApply(e: Expr, take: bool, strict: bool, c: seq<Scope<bool>>, way: seq<nat>, c1: seq<Scope<bool>>)
    requires e.Apply? && !e.panics && Passes(Operands(e.args), strict, c, way, c1)
    ensures Passes(Whole(e, take), strict, c, way, c1)
  {
    forall rest: seq<nat> ensures Run(Whole(e, take), strict, way + rest, c) == Next(c1, rest) {
      PassesOn(Operands(e.args), strict, c, way, c1, rest);
    }
  }

  lemma PassesBlock(e: Expr, take: bool, strict: bool, c: seq<Scope<bool>>, way: seq<nat>, c1: seq<Scope<bool>>)
    requires e.Block? && |c1| == |c| + 1 && Passes(Rest(e.body, take), strict, c + [Scope(map[], [])], way, c1)
    requires strict ==> e.drops == Due(c1[|c|].order, Owned(c1[|c|]))
    ensures Passes(Whole(e, take), strict, c, way, c1[..|c|])
  {
    forall rest: seq<nat> ensures Run(Whole(e, take), strict, way + rest, c) == Next(c1[..|c|], rest) {
      PassesOn(Rest(e.body, take), strict, c + [Scope(map[], [])], way, c1, rest);
    }
  }

  lemma LeadIf(e: Expr, yes: bool, take: bool, strict: bool, c: seq<Scope<bool>>, way: seq<nat>, c1: seq<Scope<bool>>)
    requires e.If? && Passes(Whole(e.cond, false), strict, c, way, c1)
    ensures Leads(Whole(e, take), strict, c, way + [if yes then 1 else 0], Whole(if yes then e.thn else e.els, take), c1)
  {
    var digit := if yes then 1 else 0;
    forall rest: seq<nat> ensures Run(Whole(e, take), strict, way + [digit] + rest, c) == Run(Whole(if yes then e.thn else e.els, take), strict, rest, c1) {
      Regroup(way, [digit], rest);
      Front(digit, rest);
      PassesOn(Whole(e.cond, false), strict, c, way, c1, [digit] + rest);
    }
  }

  lemma LeadMatch(e: Expr, take: bool, strict: bool, c: seq<Scope<bool>>, way: seq<nat>, c1: seq<Scope<bool>>)
    requires e.Match? && Passes(Whole(e.scrutinee, !e.copy), strict, c, way, c1)
    ensures Leads(Whole(e, take), strict, c, way, Cases(e.arms, take), c1)
  {
    forall rest: seq<nat> ensures Run(Whole(e, take), strict, way + rest, c) == Run(Cases(e.arms, take), strict, rest, c1) {
      PassesOn(Whole(e.scrutinee, !e.copy), strict, c, way, c1, rest);
    }
  }

  // ----- loops

  lemma RunLoop(e: Expr, take: bool, strict: bool, choices: seq<nat>, c: seq<Scope<bool>>)
    requires e.Loop? || e.While?
    ensures Run(Whole(e, take), strict, choices, c) == ExecLoop(e, take, strict, choices, c)
  {
  }

  lemma LeadLoop(e: Expr, take: bool, strict: bool, c: seq<Scope<bool>>, way: seq<nat>, c1: seq<Scope<bool>>)
    requires e.Loop? && Passes(Whole(e.body_, false), strict, c, way, c1)
    ensures Leads(Whole(e, take), strict, c, [0] + way, Whole(e, take), c1)
  {
    forall rest: seq<nat> ensures Run(Whole(e, take), strict, [0] + way + rest, c) == Run(Whole(e, take), strict, rest, c1) {
      Regroup([0], way, rest);
      Front(0, way + rest);
      RunLoop(e, take, strict, [0] + (way + rest), c);
      PassesOn(Whole(e.body_, false), strict, c, way, c1, rest);
    }
  }

  /** Once round. */
  lemma LeadWhile(e: Expr, take: bool, strict: bool, c: seq<Scope<bool>>, way: seq<nat>, c1: seq<Scope<bool>>, way': seq<nat>, c2: seq<Scope<bool>>)
    requires e.While? && Passes(Whole(e.cond, false), strict, c, way, c1) && Passes(Whole(e.body_, false), strict, c1, way', c2)
    ensures Leads(Whole(e, take), strict, c, way + ([1] + way'), Whole(e, take), c2)
  {
    forall rest: seq<nat> ensures Run(Whole(e, take), strict, way + ([1] + way') + rest, c) == Run(Whole(e, take), strict, rest, c2) {
      Regroup(way, [1] + way', rest);
      Regroup([1], way', rest);
      Front(1, way' + rest);
      RunLoop(e, take, strict, way + ([1] + (way' + rest)), c);
      PassesOn(Whole(e.cond, false), strict, c, way, c1, [1] + (way' + rest));
      PassesOn(Whole(e.body_, false), strict, c1, way', c2, rest);
    }
  }

  /** Leaving at once. */
  lemma PassesWhile(e: Expr, take: bool, strict: bool, c: seq<Scope<bool>>, way: seq<nat>, c1: seq<Scope<bool>>)
    requires e.While? && Passes(Whole(e.cond, false), strict, c, way, c1)
    ensures Passes(Whole(e, take), strict, c, way + [0], c1)
  {
    forall rest: seq<nat> ensures Run(Whole(e, take), strict, way + [0] + rest, c) == Next(c1, rest) {
      Regroup(way, [0], rest);
      Front(0, rest);
      RunLoop(e, take, strict, way + ([0] + rest), c);
      PassesOn(Whole(e.cond, false), strict, c, way, c1, [0] + rest);
    }
  }

  // ----- statements and operands

  lemma LeadTail(st: Stmts, take: bool, strict: bool, c: seq<Scope<bool>>)
    requires st.Tail? && c != []
    ensures Leads(Rest(st, take), strict, c, [], Whole(st.tail, take), c)
  {
    forall rest: seq<nat> ensures Run(Rest(st, take), strict, [] + rest, c) == Run(Whole(st.tail, take), strict, rest, c) {
      NoChoices(rest);
    }
  }

  lemma LeadLet(st: Stmts, take: bool, strict: bool, c: seq<Scope<bool>>, way: seq<nat>, c1: seq<Scope<bool>>)
    requires st.Let? && c != [] && c1 != [] && Passes(Whole(st.value, !st.copy), strict, c, way, c1)
    ensures Leads(Rest(st, take), strict, c, way, Rest(st.rest, take), Define(c1, st.binds, false))
  {
    forall rest: seq<nat> ensures Run(Rest(st, take), strict, way + rest, c) == Run(Rest(st.rest, take), strict, rest, Define(c1, st.binds, false)) {
      PassesOn(Whole(st.value, !st.copy), strict, c, way, c1, rest);
    }
  }

  lemma LeadDo(st: Stmts, take: bool, strict: bool, c: seq<Scope<bool>>, way: seq<nat>, c1: seq<Scope<bool>>)
    requires st.Do? && c != [] && c1 != [] && Passes(Whole(st.e, !st.copy), strict, c, way, c1)
    ensures Leads(Rest(st, take), strict, c, way, Rest(st.rest, take), c1)
  {
    forall rest: seq<nat> ensures Run(Rest(st, take), strict, way + rest, c) == Run(Rest(st.rest, take), strict, rest, c1) {
      PassesOn(Whole(st.e, !st.copy), strict, c, way, c1, rest);
    }
  }

  lemma PassesNoArgs(strict: bool, c: seq<Scope<bool>>)
    ensures Passes(Operands(NoArgs), strict, c, [], c)
  {
    forall rest: seq<nat> ensures Run(Operands(NoArgs), strict, [] + rest, c) == Next(c, rest) {
      NoChoices(rest);
    }
  }

  lemma LeadArg(args: Args, strict: bool, c: seq<Scope<bool>>, way: seq<nat>, c1: seq<Scope<bool>>)
    requires args.Arg? && Passes(Whole(args.e, args.taken), strict, c, way, c1)
    ensures Leads(Operands(args), strict, c, way, Operands(args.rest), c1)
  {
    forall rest: seq<nat> ensures Run(Operands(args), strict, way + rest, c) == Run(Operands(args.rest), strict, rest, c1) {
      PassesOn(Whole(args.e, args.taken), strict, c, way, c1, rest);
    }
  }

  // ----- match arms

  /** A pattern does not fit, and the next arm is tried. */
  lemma LeadSkip(arms: Arms, take: bool, strict: bool, c: seq<Scope<bool>>)
    requires arms.Arm?
    ensures Leads(Cases(arms, take), strict, c, [0], Cases(arms.rest, take), c)
  {
    forall rest: seq<nat> ensures Run(Cases(arms, take), strict, [0] + rest, c) == Run(Cases(arms.rest, take), strict, rest, c) {
      Front(0, rest);
    }
  }

  /** What an arm whose pattern fits comes to, by the outcome of its guard. */
  lemma ArmStep(arms: Arms, take: bool, strict: bool, c: seq<Scope<bool>>, choices: seq<nat>, c1: seq<Scope<bool>>, n: nat, rest: seq<nat>)
    requires arms.Arm? && |c1| == |c| + 1
    requires Exec(arms.guard, false, strict, choices, Enter(c, arms.binds)) == Next(c1, [n] + rest)
    ensures ExecArms(arms, take, strict, [1] + choices, c) ==
      if n == 0 then ExecArms(arms.rest, take, strict, rest, c1[..|c|])
      else
        var b := Exec(arms.body, take, strict, rest, c1);
        if !b.Next? then b else Next(b.scopes[..|c|], b.rest)
  {
    Front(1, choices);
    Front(n, rest);
    hide Enter, Exec;
  }

  /** A guard fails, and the next arm is tried. */
  lemma LeadFail(arms: Arms, take: bool, strict: bool, c: seq<Scope<bool>>, way: seq<nat>, c1: seq<Scope<bool>>)
    requires arms.Arm? && |c1| == |c| + 1 && Passes(Whole(arms.guard, false), strict, Enter(c, arms.binds), way, c1)
    ensures Leads(Cases(arms, take), strict, c, [1] + (way + [0]), Cases(arms.rest, take), c1[..|c|])
  {
    hide Exec, ExecArms, Enter;
    forall rest: seq<nat> ensures Run(Cases(arms, take), strict, [1] + (way + [0]) + rest, c) == Run(Cases(arms.rest, take), strict, rest, c1[..|c|]) {
      Regroup([1], way + [0], rest);
      Regroup(way, [0], rest);
      PassesOn(Whole(arms.guard, false), strict, Enter(c, arms.binds), way, c1, [0] + rest);
      ArmStep(arms, take, strict, c, way + ([0] + rest), c1, 0, rest);
    }
  }

  /** An arm is taken with what its body leaves. */
  lemma PassesArm(arms: Arms, take: bool, strict: bool, c: seq<Scope<bool>>, way: seq<nat>, c1: seq<Scope<bool>>, way': seq<nat>, c2: seq<Scope<bool>>)
    requires arms.Arm? && |c1| == |c2| == |c| + 1
    requires Passes(Whole(arms.guard, false), strict, Enter(c, arms.binds), way, c1) && Passes(Whole(arms.body, take), strict, c1, way', c2)
    ensures Passes(Cases(arms, take), strict, c, [1] + (way + ([1] + way')), c2[..|c|])
  {
    hide Exec, ExecArms, Enter;
    forall rest: seq<nat> ensures Run(Cases(arms, take), strict, [1] + (way + ([1] + way')) + rest, c) == Next(c2[..|c|], rest) {
      Regroup([1], way + ([1] + way'), rest);
      Regroup(way, [1] + way', rest);
      Regroup([1], way', rest);
      PassesOn(Whole(arms.guard, false), strict, Enter(c, arms.binds), way, c1, [1] + (way' + rest));
      PassesOn(Whole(arms.body, take), strict, c1, way', c2, rest);
      ArmStep(arms, take, strict, c, way + ([1] + (way' + rest)), c1, 1, way' + rest);
    }
  }
}
