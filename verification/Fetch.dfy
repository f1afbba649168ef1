/** Concurrent fetches of one dependency into the shared package cache: clone
    into a temporary directory, pin, rename into place. Any number of processes,
    any interleaving, an upstream whose refs move, processes that die anywhere. */
module Fetching {

  datatype Option<+T> = None | Some(value: T)

  type Commit = nat

  /** A directory: what it is checked out at, and whether it is all there. */
  datatype Dir = Dir(commit: Commit, complete: bool)

  datatype Kind = TagOrBranch | Exactly(rev: Commit)

  datatype Pc =
    | Start
    | Missing
    | Cloning(tmp: nat)
    | Cloned(tmp: nat, commit: Commit)
    | Pinning(tmp: nat, commit: Commit)
    | Ready(tmp: nat, commit: Commit)
    | Lost(tmp: nat)
    | Reuse
    | Done(commit: Commit)
    | Failed
    | Dead

  datatype Process = Process(kind: Kind, locked: Option<Commit>, pc: Pc)

  datatype State = State(target: Option<Dir>, temps: map<nat, Dir>, nextTmp: nat, upstream: Commit, procs: seq<Process>)

  /** What happens next: a process goes on, an operation of it fails, it dies,
      a new one is started, or the ref moves upstream. */
  datatype Event = Go(i: nat) | Fail(i: nat) | Die(i: nat) | Spawn(kind: Kind, locked: Option<Commit>) | Move(to: Commit)

  function At(s: State, i: nat, pc: Pc): State
    requires i < |s.procs|
  {
    s.(procs := s.procs[i := s.procs[i].(pc := pc)])
  }

  /** One file-system operation of a fetch. */
  function Advance(s: State, i: nat): State
    requires i < |s.procs|
  {
    var p := s.procs[i];
    match p.pc
    case Start => At(s, i, if s.target.Some? then Reuse else Missing)
    case Missing => At(s, i, Cloning(s.nextTmp)).(temps := s.temps[s.nextTmp := Dir(0, false)], nextTmp := s.nextTmp + 1)
    case Cloning(tmp) =>
      var commit := if p.kind.Exactly? then p.kind.rev else s.upstream;
      At(s, i, Cloned(tmp, commit)).(temps := s.temps[tmp := Dir(commit, true)])
    case Cloned(tmp, commit) =>
      if p.locked.Some? && p.locked.value != commit then
        At(s, i, Pinning(tmp, p.locked.value)).(temps := s.temps[tmp := Dir(commit, false)])
      else At(s, i, Ready(tmp, commit))
    case Pinning(tmp, commit) => At(s, i, Ready(tmp, commit)).(temps := s.temps[tmp := Dir(commit, true)])
    case Ready(tmp, commit) =>
      if s.target.None? && tmp in s.temps then At(s, i, Done(commit)).(target := Some(s.temps[tmp]), temps := s.temps - {tmp})
      else At(s, i, Lost(tmp))
    case Lost(tmp) => if s.target.Some? then At(s, i, Reuse).(temps := s.temps - {tmp}) else At(s, i, Failed)
    case Reuse =>
      if p.locked.Some? then At(s, i, Done(p.locked.value))
      else if s.target.Some? then At(s, i, Done(s.target.value.commit))
      else At(s, i, Failed)
    case Done(_) => s
    case Failed => s
    case Dead => s
  }

  predicate Over(pc: Pc) {
    pc.Done? || pc.Failed? || pc.Dead?
  }

  function Step(s: State, e: Event): State {
    match e
    case Go(i) => if i < |s.procs| then Advance(s, i) else s
    case Fail(i) => if i < |s.procs| && !Over(s.procs[i].pc) then At(s, i, Failed) else s
    case Die(i) => if i < |s.procs| && !Over(s.procs[i].pc) then At(s, i, Dead) else s
    case Spawn(kind, locked) => s.(procs := s.procs + [Process(kind, locked, Start)])
    case Move(to) => s.(upstream := to)
  }

  function Run(s: State, events: seq<Event>): State
    decreases |events|
  {
    if events == [] then s else Run(Step(s, events[0]), events[1..])
  }

  /** An empty cache, no process yet, some upstream. */
  predicate Initial(s: State) {
    s.target == None && s.temps == map[] && s.procs == []
  }

  ghost predicate Reachable(s: State) {
    exists s0: State, events: seq<Event> :: Initial(s0) && Run(s0, events) == s
  }

  // ---------------------------------------------------------------
  // the invariant
  // ---------------------------------------------------------------

  predicate Holds(pc: Pc, tmp: nat) {
    (pc.Cloning? || pc.Cloned? || pc.Pinning? || pc.Ready? || pc.Lost?) && pc.tmp == tmp
  }

  /** Where a process is agrees with what is on disk. */
  predicate Placed(s: State, p: Process) {
    match p.pc
    case Cloning(tmp) => tmp in s.temps
    case Cloned(tmp, c) => tmp in s.temps && s.temps[tmp] == Dir(c, true)
    case Pinning(tmp, c) => tmp in s.temps && p.locked == Some(c)
    case Ready(tmp, c) => tmp in s.temps && s.temps[tmp] == Dir(c, true) && (p.locked.Some? ==> c == p.locked.value)
    case Lost(tmp) => tmp in s.temps && s.target.Some?
    case Reuse => s.target.Some?
    case Done(c) => s.target.Some? && c == if p.locked.Some? then p.locked.value else s.target.value.commit
    case _ => true
  }

  ghost predicate Inv(s: State) {
    && (s.target.Some? ==> s.target.value.complete)
    && (forall tmp :: tmp in s.temps ==> tmp < s.nextTmp)
    && (forall i :: 0 <= i < |s.procs| ==> Placed(s, s.procs[i]))
    && (forall i, j, tmp :: 0 <= i < |s.procs| && 0 <= j < |s.procs| && Holds(s.procs[i].pc, tmp) && Holds(s.procs[j].pc, tmp) ==> i == j)
  }

  /** Directories other processes hold are left alone. */
  lemma OthersPlaced(s: State, s': State, i: nat)
    requires Inv(s) && i < |s.procs| && |s'.procs| == |s.procs|
    requires forall j :: 0 <= j < |s.procs| && j != i ==> s'.procs[j] == s.procs[j]
    requires s.target.Some? ==> s'.target == s.target
    requires forall tmp :: tmp in s.temps && !Holds(s.procs[i].pc, tmp) ==> tmp in s'.temps && s'.temps[tmp] == s.temps[tmp]
    ensures forall j :: 0 <= j < |s.procs| && j != i ==> Placed(s', s'.procs[j])
  {
    forall j | 0 <= j < |s.procs| && j != i ensures Placed(s', s'.procs[j]) {
      assert Placed(s, s.procs[j]);
      var pc := s.procs[j].pc;
      if pc.Cloning? || pc.Cloned? || pc.Pinning? || pc.Ready? || pc.Lost? {
        assert Holds(pc, pc.tmp);
        assert !Holds(s.procs[i].pc, pc.tmp);
      }
    }
  }

  lemma AdvanceInv(s: State, i: nat)
    requires Inv(s) && i < |s.procs|
    ensures Inv(Advance(s, i))
  {
    var s' := Advance(s, i);
    assert Placed(s, s.procs[i]);
    OthersPlaced(s, s', i);
    forall a, b, tmp | 0 <= a < |s'.procs| && 0 <= b < |s'.procs| && Holds(s'.procs[a].pc, tmp) && Holds(s'.procs[b].pc, tmp)
      ensures a == b
    {
      HeldBefore(s, i, a, tmp);
      HeldBefore(s, i, b, tmp);
    }
  }

  /** A directory held after a step was held before by the same process, or is
      new. */
  lemma HeldBefore(s: State, i: nat, j: nat, tmp: nat)
    requires Inv(s) && i < |s.procs| && j < |s.procs| && Holds(Advance(s, i).procs[j].pc, tmp)
    ensures Holds(s.procs[j].pc, tmp) || (j == i && tmp == s.nextTmp)
    ensures Holds(s.procs[j].pc, tmp) ==> tmp < s.nextTmp
  {
    assert Placed(s, s.procs[j]);
  }

  lemma StepInv(s: State, e: Event)
    requires Inv(s)
    ensures Inv(Step(s, e))
  {
    match e
    case Go(i) =>
      if i < |s.procs| {
        AdvanceInv(s, i);
      }
    case Fail(i) =>
      if i < |s.procs| && !Over(s.procs[i].pc) {
        StopInv(s, i, Failed);
      }
    case Die(i) =>
      if i < |s.procs| && !Over(s.procs[i].pc) {
        StopInv(s, i, Dead);
      }
    case Spawn(kind, locked) => SpawnInv(s, kind, locked);
    case Move(to) =>
      var s' := Step(s, e);
      forall j | 0 <= j < |s'.procs| ensures Placed(s', s'.procs[j]) {
        assert Placed(s, s.procs[j]);
      }
  }

  lemma StopInv(s: State, i: nat, pc: Pc)
    requires Inv(s) && i < |s.procs| && (pc.Failed? || pc.Dead?)
    ensures Inv(At(s, i, pc))
  {
    OthersPlaced(s, At(s, i, pc), i);
  }

  lemma SpawnInv(s: State, kind: Kind, locked: Option<Commit>)
    requires Inv(s)
    ensures Inv(Step(s, Spawn(kind, locked)))
  {
    var s' := Step(s, Spawn(kind, locked));
    forall j | 0 <= j < |s'.procs| ensures Placed(s', s'.procs[j]) {
      if j < |s.procs| {
        assert Placed(s, s.procs[j]);
      }
    }
  }

  lemma {:induction false} RunInv(s: State, events: seq<Event>)
    requires Inv(s)
    ensures Inv(Run(s, events))
    decreases |events|
  {
    hide Inv, Step;
    if events != [] {
      StepInv(s, events[0]);
      RunInv(Step(s, events[0]), events[1..]);
    }
  }

  lemma ReachableInv(s: State)
    requires Reachable(s)
    ensures Inv(s)
  {
    var s0: State, events: seq<Event> :| Initial(s0) && Run(s0, events) == s;
    assert Inv(s0);
    RunInv(s0, events);
  }

  // ---------------------------------------------------------------
  // results
  // ---------------------------------------------------------------

  /** The cached copy is absent or complete, whoever dies where. */
  lemma AbsentOrComplete(s: State)
    requires Reachable(s)
    ensures s.target.Some? ==> s.target.value.complete
  {
    ReachableInv(s);
  }

  /** Once present, the cached copy never changes and never goes away. */
  lemma {:induction false} TargetNeverChanges(s: State, events: seq<Event>)
    requires s.target.Some?
    ensures Run(s, events).target == s.target
    decreases |events|
  {
    if events != [] {
      TargetNeverChanges(Step(s, events[0]), events[1..]);
    }
  }

  /** Every fetch that succeeds finds the copy present; without a lock it returns
      the commit the copy is at, now and for ever, so all of them agree. */
  lemma FetchesAgree(s: State, i: nat, later: seq<Event>, j: nat)
    requires Reachable(s) && i < |s.procs| && s.procs[i].pc.Done? && s.procs[i].locked == None
    ensures s.target == Some(Dir(s.procs[i].pc.commit, true))
    ensures j < |Run(s, later).procs| && Run(s, later).procs[j].pc.Done? && Run(s, later).procs[j].locked == None ==>
      Run(s, later).procs[j].pc.commit == s.procs[i].pc.commit
  {
    ReachableInv(s);
    assert Placed(s, s.procs[i]);
    TargetNeverChanges(s, later);
    RunInv(s, later);
    var s' := Run(s, later);
    if j < |s'.procs| {
      assert Placed(s', s'.procs[j]);
    }
  }

  /** With a lock a fetch returns the locked commit. */
  lemma LockedFetch(s: State, i: nat, commit: Commit)
    requires Reachable(s) && i < |s.procs| && s.procs[i].pc.Done? && s.procs[i].locked == Some(commit)
    ensures s.procs[i].pc.commit == commit && s.target.Some?
  {
    ReachableInv(s);
    assert Placed(s, s.procs[i]);
  }

  /** A process that renames its clone into place puts there what it returns. */
  lemma WinnerInstalls(s: State, i: nat)
    requires Reachable(s) && s.target.None? && i < |s.procs| && s.procs[i].pc.Ready?
    ensures var s' := Step(s, Go(i));
      && s'.procs[i].pc == Done(s.procs[i].pc.commit)
      && s'.target == Some(Dir(s.procs[i].pc.commit, true))
      && (s.procs[i].locked.Some? ==> s'.target.value.commit == s.procs[i].locked.value)
  {
    ReachableInv(s);
    assert Placed(s, s.procs[i]);
  }

  // ---------------------------------------------------------------
  // what a fetch installs
  // ---------------------------------------------------------------

  /** A clone made for an exact revision is at that revision, unless a lock names
      another commit. */
  predicate Asked(p: Process) {
    p.kind.Exactly? ==>
      && (p.pc.Cloned? ==> p.pc.commit == p.kind.rev)
      && (p.pc.Ready? && p.locked.None? ==> p.pc.commit == p.kind.rev)
  }

  ghost predicate AllAsked(s: State) {
    forall i :: 0 <= i < |s.procs| ==> Asked(s.procs[i])
  }

  lemma {:induction false} RunAsked(s: State, events: seq<Event>)
    requires Inv(s) && AllAsked(s)
    ensures AllAsked(Run(s, events))
    decreases |events|
  {
    if events != [] {
      var s' := Step(s, events[0]);
      forall i | 0 <= i < |s'.procs| ensures Asked(s'.procs[i]) {
        assert i < |s.procs| ==> Asked(s.procs[i]) && Placed(s, s.procs[i]);
      }
      StepInv(s, events[0]);
      RunAsked(s', events[1..]);
    }
  }

  /** Whatever other processes ask for, the one that renames its clone into place
      installs and returns the revision it asked for; with a lock, the locked
      commit. */
  lemma ExactWinner(s: State, i: nat)
    requires Reachable(s) && s.target.None? && i < |s.procs| && s.procs[i].pc.Ready? && s.procs[i].kind.Exactly?
    ensures var s', p := Step(s, Go(i)), s.procs[i];
      var commit := if p.locked.Some? then p.locked.value else p.kind.rev;
      s'.procs[i].pc == Done(commit) && s'.target == Some(Dir(commit, true))
  {
    WinnerInstalls(s, i);
    var s0: State, events: seq<Event> :| Initial(s0) && Run(s0, events) == s;
    RunAsked(s0, events);
    assert Asked(s.procs[i]);
  }

  /** Every process that is started asks for one revision, and no lock names
      another. */
  ghost predicate AsksOnly(events: seq<Event>, rev: Commit) {
    forall e :: e in events && e.Spawn? ==> e.kind == Exactly(rev) && (e.locked == None || e.locked == Some(rev))
  }

  predicate Pinned(p: Process, rev: Commit) {
    && p.kind == Exactly(rev) && (p.locked == None || p.locked == Some(rev))
    && (p.pc.Cloned? || p.pc.Pinning? || p.pc.Ready? || p.pc.Done? ==> p.pc.commit == rev)
  }

  ghost predicate AllAt(s: State, rev: Commit) {
    && (s.target.Some? ==> s.target.value.commit == rev)
    && forall i :: 0 <= i < |s.procs| ==> Pinned(s.procs[i], rev)
  }

  lemma StepAt(s: State, e: Event, rev: Commit)
    requires Inv(s) && AllAt(s, rev) && (e.Spawn? ==> e.kind == Exactly(rev) && (e.locked == None || e.locked == Some(rev)))
    ensures AllAt(Step(s, e), rev)
  {
    var s' := Step(s, e);
    if e.Go? && e.i < |s.procs| {
      var p := s.procs[e.i];
      assert Placed(s, p) && Pinned(p, rev);
      assert Pinned(s'.procs[e.i], rev);
    }
    forall i | 0 <= i < |s'.procs| ensures Pinned(s'.procs[i], rev) {
      assert i < |s.procs| ==> Pinned(s.procs[i], rev);
    }
  }

  lemma {:induction false} RunAt(s: State, events: seq<Event>, rev: Commit)
    requires Inv(s) && AllAt(s, rev) && AsksOnly(events, rev)
    ensures AllAt(Run(s, events), rev)
    decreases |events|
  {
    hide Inv, Step, AllAt;
    if events != [] {
      StepAt(s, events[0], rev);
      StepInv(s, events[0]);
      RunAt(Step(s, events[0]), events[1..], rev);
    }
  }

  /** If every process asks for `rev`, the cached copy, once present, is a complete
      checkout of `rev` and every fetch that succeeds returns it, wherever the ref
      moves and whoever dies. */
  lemma ExactRevision(s0: State, events: seq<Event>, rev: Commit)
    requires Initial(s0) && AsksOnly(events, rev)
    ensures var s := Run(s0, events);
      && (s.target.Some? ==> s.target == Some(Dir(rev, true)))
      && forall i :: 0 <= i < |s.procs| && s.procs[i].pc.Done? ==> s.procs[i].pc.commit == rev
  {
    RunAt(s0, events, rev);
    RunInv(s0, events);
    var s := Run(s0, events);
    forall i | 0 <= i < |s.procs| && s.procs[i].pc.Done? ensures s.procs[i].pc.commit == rev {
      assert Pinned(s.procs[i], rev);
    }
  }

  /** Not yet cloned. */
  predicate Before(pc: Pc) {
    pc.Start? || pc.Missing? || pc.Cloning?
  }

  /** Cloned without a lock. */
  predicate Holding(pc: Pc) {
    pc.Cloned? || pc.Ready?
  }

  lemma ProcessStays(s: State, e: Event, i: nat)
    requires i < |s.procs| && s.procs[i].locked.None?
    ensures var s' := Step(s, e);
      && i < |s'.procs| && s'.procs[i].kind == s.procs[i].kind && s'.procs[i].locked.None?
      && (Holding(s.procs[i].pc) && Holding(s'.procs[i].pc) ==> s'.procs[i].pc.commit == s.procs[i].pc.commit)
      && (!Before(s.procs[i].pc) ==> !Before(s'.procs[i].pc))
      && (!Before(s.procs[i].pc) && !Holding(s.procs[i].pc) && !s.procs[i].pc.Pinning? ==> !Holding(s'.procs[i].pc) && !s'.procs[i].pc.Pinning?)
      && (Holding(s.procs[i].pc) ==> !s'.procs[i].pc.Pinning?)
  {
  }

  lemma {:induction false} CommitStays(s: State, events: seq<Event>, i: nat)
    requires i < |s.procs| && s.procs[i].locked.None? && !Before(s.procs[i].pc) && !s.procs[i].pc.Pinning?
    ensures var p := Run(s, events).procs;
      i < |p| && (Holding(p[i].pc) ==> Holding(s.procs[i].pc) && p[i].pc.commit == s.procs[i].pc.commit)
    decreases |events|
  {
    hide Step;
    if events != [] {
      ProcessStays(s, events[0], i);
      CommitStays(Step(s, events[0]), events[1..], i);
    }
  }

  /** What a process without a lock cloned for a tag or branch is what the ref named
      at some moment since. */
  lemma {:induction false} ClonedFromRef(s: State, events: seq<Event>, i: nat) returns (k: nat)
    requires i < |s.procs| && s.procs[i].kind.TagOrBranch? && s.procs[i].locked.None? && Before(s.procs[i].pc)
    requires i < |Run(s, events).procs| && Holding(Run(s, events).procs[i].pc)
    ensures k < |events| && Run(s, events).procs[i].pc.commit == Run(s, events[..k]).upstream
    decreases |events|
  {
    var e := events[0];
    var s' := Step(s, e);
    ProcessStays(s, e, i);
    assert events[..0] == [];
    if Before(s'.procs[i].pc) {
      k := ClonedFromRef(s', events[1..], i);
      k := k + 1;
      assert events[..k][0] == e && events[..k][1..] == events[1..][..k - 1];
    } else {
      k := 0;
      assert !s'.procs[i].pc.Pinning?;
      CommitStays(s', events[1..], i);
    }
  }

  /** A winner without a lock that asked for a tag or branch installs and returns a
      commit the ref named between its start and its end. */
  lemma RefWinner(s: State, events: seq<Event>, i: nat) returns (k: nat)
    requires Reachable(Run(s, events)) && i < |s.procs| && s.procs[i].pc.Start?
    requires s.procs[i].kind.TagOrBranch? && s.procs[i].locked.None?
    requires var now := Run(s, events); now.target.None? && i < |now.procs| && now.procs[i].pc.Ready?
    ensures k < |events|
    ensures var s', commit := Step(Run(s, events), Go(i)), Run(s, events[..k]).upstream;
      s'.procs[i].pc == Done(commit) && s'.target == Some(Dir(commit, true))
  {
    k := ClonedFromRef(s, events, i);
    WinnerInstalls(Run(s, events), i);
  }

  datatype Resolution = Found(commit: Commit) | NotFetched | WrongCommit

  /** A `use` of the dependency: the lock must name what is checked out. */
  function ResolveUse(s: State, locked: Option<Commit>): Resolution {
    if locked.None? || s.target.None? then NotFetched
    else if s.target.value.commit != locked.value then WrongCommit
    else Found(locked.value)
  }

  /** A `use` resolves only to a complete checkout of the locked commit, and then
      it does so in every later state. */
  lemma UseIsPinned(s: State, locked: Option<Commit>, later: seq<Event>)
    requires Reachable(s) && ResolveUse(s, locked).Found?
    ensures locked.Some? && s.target == Some(Dir(locked.value, true))
    ensures ResolveUse(Run(s, later), locked) == ResolveUse(s, locked)
  {
    ReachableInv(s);
    TargetNeverChanges(s, later);
  }

  /** Locking what an unlocked fetch returned makes the dependency usable. */
  lemma GetThenUse(s: State, i: nat, later: seq<Event>)
    requires Reachable(s) && i < |s.procs| && s.procs[i].pc.Done? && s.procs[i].locked == None
    ensures ResolveUse(Run(s, later), Some(s.procs[i].pc.commit)) == Found(s.procs[i].pc.commit)
  {
    FetchesAgree(s, i, later, 0);
    TargetNeverChanges(s, later);
  }

  /** A lock that disagrees with the cached copy never resolves again: a fetch
      returns the locked commit without looking at the copy, so fetching again,
      as the error suggests, changes nothing. */
  lemma MismatchStays(s: State, commit: Commit, later: seq<Event>)
    requires s.target.Some? && s.target.value.commit != commit
    ensures ResolveUse(Run(s, later), Some(commit)) == WrongCommit
  {
    TargetNeverChanges(s, later);
  }

  lemma {:induction false} RunOn(s: State, events: seq<Event>, e: Event)
    ensures Run(s, events + [e]) == Step(Run(s, events), e)
    decreases |events|
  {
    hide Step;
    if events == [] {
      assert Run(Step(s, e), []) == Step(s, e);
      assert ([] + [e])[1..] == [];
    } else {
      assert (events + [e])[1..] == events[1..] + [e];
      RunOn(Step(s, events[0]), events[1..], e);
    }
  }

  lemma ReachableOn(s: State, e: Event)
    requires Reachable(s)
    ensures Reachable(Step(s, e))
  {
    var s0: State, events: seq<Event> :| Initial(s0) && Run(s0, events) == s;
    RunOn(s0, events, e);
  }

  /** Such a state is reached when the ref moved between the lock and the fetch
      that filled the cache. */
  lemma MismatchHappens(wanted: Commit, moved: Commit, kind: Kind) returns (s: State)
    requires wanted != moved
    ensures Reachable(s) && |s.procs| == 2 && s.procs[1] == Process(kind, Some(wanted), Done(wanted))
    ensures ResolveUse(s, Some(wanted)) == WrongCommit
  {
    var s0 := State(None, map[], 0, moved, []);
    assert Initial(s0) && Run(s0, []) == s0;
    hide Reachable;
    s := Filled(s0);
    var s1 := Step(s, Spawn(kind, Some(wanted)));
    ReachableOn(s, Spawn(kind, Some(wanted)));
    var s2 := Step(s1, Go(1));
    ReachableOn(s1, Go(1));
    assert s2.procs[1].pc == Reuse;
    s := Step(s2, Go(1));
    ReachableOn(s2, Go(1));
  }

  /** One fetch without a lock, from start to end. */
  lemma Filled(s0: State) returns (s: State)
    requires Initial(s0) && Reachable(s0)
    ensures Reachable(s) && |s.procs| == 1 && s.target == Some(Dir(s0.upstream, true))
  {
    hide Reachable;
    s := s0;
    ReachableOn(s, Spawn(TagOrBranch, None));
    s := Step(s, Spawn(TagOrBranch, None));
    ReachableOn(s, Go(0));
    s := Step(s, Go(0));
    ReachableOn(s, Go(0));
    s := Step(s, Go(0));
    ReachableOn(s, Go(0));
    s := Step(s, Go(0));
    assert s.procs[0].pc == Cloned(s0.nextTmp, s0.upstream);
    ReachableOn(s, Go(0));
    s := Step(s, Go(0));
    assert s.procs[0].pc == Ready(s0.nextTmp, s0.upstream);
    ReachableOn(s, Go(0));
    s := Step(s, Go(0));
  }
}
