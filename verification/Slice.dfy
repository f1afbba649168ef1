/** The part of a module that compile-time code can reach from some names. */
module ComptimeSlice {

  type Name = nat

  /** A function or method and the names its declaration mentions. */
  datatype Fn = Fn(name: Name, mentions: set<Name>)

  /** Every name mentioned by a function whose name is in the set is in it. */
  predicate Closed(fns: seq<Fn>, names: set<Name>) {
    forall i :: 0 <= i < |fns| && fns[i].name in names ==> fns[i].mentions <= names
  }

  function Mentioned(fns: seq<Fn>, names: set<Name>): set<Name> {
    if fns == [] then {}
    else (if fns[0].name in names then fns[0].mentions else {}) + Mentioned(fns[1..], names)
  }

  function AllMentions(fns: seq<Fn>): set<Name> {
    if fns == [] then {} else fns[0].mentions + AllMentions(fns[1..])
  }

  lemma {:induction false} MentionedIs(fns: seq<Fn>, names: set<Name>)
    ensures forall i :: 0 <= i < |fns| && fns[i].name in names ==> fns[i].mentions <= Mentioned(fns, names)
    ensures Mentioned(fns, names) <= AllMentions(fns)
    ensures forall wide: set<Name> :: names <= wide && Closed(fns, wide) ==> Mentioned(fns, names) <= wide
  {
    if fns != [] {
      MentionedIs(fns[1..], names);
      assert forall i :: 1 <= i < |fns| ==> fns[i] == fns[1..][i - 1];
      forall wide: set<Name> | names <= wide && Closed(fns, wide) ensures Mentioned(fns, names) <= wide {
        assert Closed(fns[1..], wide);
        assert fns[0].name in names ==> fns[0].mentions <= wide;
      }
    }
  }

  lemma {:induction false} Bounded(a: set<Name>, b: set<Name>)
    requires a <= b
    ensures |a| <= |b|
    ensures |a| == |b| ==> a == b
  {
    if a != {} {
      var x :| x in a;
      Bounded(a - {x}, b - {x});
      assert a == a - {x} + {x} && b == b - {x} + {x};
    }
  }

  /** The names reached from the roots: the smallest set that has the roots and is
      closed under mention. */
  method Reach(fns: seq<Fn>, roots: set<Name>) returns (reached: set<Name>)
    ensures roots <= reached && Closed(fns, reached)
    ensures forall wide: set<Name> :: roots <= wide && Closed(fns, wide) ==> reached <= wide
  {
    reached := roots;
    ghost var limit := roots + AllMentions(fns);
    while true
      invariant roots <= reached <= limit
      invariant forall wide: set<Name> :: roots <= wide && Closed(fns, wide) ==> reached <= wide
      decreases |limit| - |reached|
    {
      MentionedIs(fns, reached);
      var before := |reached|;
      ghost var was := reached;
      Bounded(reached, limit);
      reached := reached + Mentioned(fns, reached);
      Bounded(was, reached);
      Bounded(reached, limit);
      if |reached| == before {
        break;
      }
    }
  }

  function Keep(fns: seq<Fn>, reached: set<Name>): seq<Fn> {
    if fns == [] then []
    else
      var n := |fns| - 1;
      Keep(fns[..n], reached) + if fns[n].name in reached then [fns[n]] else []
  }

  /** `kept` is what stands in `fns` at the places `at`, in that order. */
  predicate Picks(fns: seq<Fn>, at: seq<nat>, kept: seq<Fn>) {
    && |at| == |kept|
    && (forall i :: 0 <= i < |at| ==> at[i] < |fns| && kept[i] == fns[at[i]])
    && (forall i, j :: 0 <= i < j < |at| ==> at[i] < at[j])
  }

  lemma PicksMore(fns: seq<Fn>, at: seq<nat>, kept: seq<Fn>)
    requires fns != [] && Picks(fns[..|fns| - 1], at, kept)
    ensures var n := |fns| - 1; Picks(fns, at, kept) && Picks(fns, at + [n], kept + [fns[n]]) && n !in at
  {
    var n := |fns| - 1;
    forall i | 0 <= i < |at| ensures at[i] < n && kept[i] == fns[at[i]] {
    }
  }

  /** Keeping is picking the functions with reached names, each once and in order. */
  lemma {:induction false} KeepPicks(fns: seq<Fn>, reached: set<Name>) returns (at: seq<nat>)
    ensures Picks(fns, at, Keep(fns, reached))
    ensures forall i :: 0 <= i < |fns| ==> (i in at <==> fns[i].name in reached)
  {
    at := [];
    if fns != [] {
      var n := |fns| - 1;
      var before := KeepPicks(fns[..n], reached);
      var kept := Keep(fns[..n], reached);
      PicksMore(fns, before, kept);
      hide Picks;
      assert before + [] == before && kept + [] == kept;
      at := before + if fns[n].name in reached then [n] else [];
      forall i | 0 <= i < |fns| ensures i in at <==> fns[i].name in reached {
        if i < n {
          assert fns[..n][i] == fns[i];
        }
      }
    }
  }

  /** The smallest set that has the roots and is closed under mention. */
  ghost predicate Least(fns: seq<Fn>, roots: set<Name>, reached: set<Name>) {
    && roots <= reached && Closed(fns, reached)
    && forall wide: set<Name> :: roots <= wide && Closed(fns, wide) ==> reached <= wide
  }

  /** The slice is what is left of the module when the functions whose names are not
      reached are taken out: each of the others once, in the order they stand. */
  method Slice(fns: seq<Fn>, roots: set<Name>) returns (kept: seq<Fn>, ghost reached: set<Name>, ghost at: seq<nat>)
    ensures Least(fns, roots, reached) && Picks(fns, at, kept)
    ensures forall i :: 0 <= i < |fns| ==> (i in at <==> fns[i].name in reached)
    ensures forall f :: f in fns && f.name in roots ==> f in kept
    ensures forall f, g :: f in kept && g in fns && g.name in f.mentions ==> g in kept
    ensures forall f :: f in kept ==> f in fns && forall wide: set<Name> :: roots <= wide && Closed(fns, wide) ==> f.name in wide
  {
    var names := Reach(fns, roots);
    reached := names;
    kept := Keep(fns, names);
    at := KeepPicks(fns, names);
    forall f | f in fns && f.name in reached ensures f in kept {
      var i :| 0 <= i < |fns| && fns[i] == f;
      var j :| 0 <= j < |at| && at[j] == i;
      assert kept[j] == f;
    }
    forall f | f in kept ensures f in fns && f.name in reached {
      var j :| 0 <= j < |kept| && kept[j] == f;
      assert at[j] in at;
    }
    forall f, g | f in kept && g in fns && g.name in f.mentions ensures g in kept {
      var i :| 0 <= i < |fns| && fns[i] == f;
    }
  }
}
