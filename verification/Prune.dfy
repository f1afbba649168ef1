/** The build cache's pruner: orphaned binaries go first, then manifests oldest
    first until what is left meets the age and the size limit, each binary with
    the last manifest that refers to it. */
module Pruning {

  type Output = nat

  /** Files of the cache: manifests, the binaries they name, and the line tables
      beside a binary. */
  datatype File = Index(id: nat) | Binary(output: Output) | Lines(output: Output)

  type Disk = map<File, nat>

  /** A manifest that parses: when it was last used and what it refers to. */
  datatype Manifest = Manifest(id: nat, age: nat, output: Output)

  datatype Policy = Policy(maxAge: nat, maxSize: nat, touchInterval: nat)

  // ---------------------------------------------------------------
  // sizes
  // ---------------------------------------------------------------

  function Size(disk: Disk, f: File): nat {
    if f in disk then disk[f] else 0
  }

  ghost function Total(disk: Disk): nat {
    if disk == map[] then 0
    else
      var f :| f in disk;
      disk[f] + Total(disk - {f})
  }

  /** The total does not depend on the order files are counted in. */
  lemma {:induction false} TotalWithout(disk: Disk, f: File)
    requires f in disk
    ensures Total(disk) == disk[f] + Total(disk - {f})
    decreases |disk|
  {
    var g :| g in disk && Total(disk) == disk[g] + Total(disk - {g});
    if g != f {
      TotalWithout(disk - {g}, f);
      TotalWithout(disk - {f}, g);
      assert disk - {g} - {f} == disk - {f} - {g};
    }
  }

  lemma RemoveTotal(disk: Disk, f: File)
    ensures Total(disk) == Size(disk, f) + Total(disk - {f})
  {
    if f in disk {
      TotalWithout(disk, f);
    } else {
      assert disk - {f} == disk;
    }
  }

  method SumSizes(disk: Disk) returns (total: nat)
    ensures total == Total(disk)
  {
    total := 0;
    var rest := disk;
    while rest != map[]
      invariant total + Total(rest) == Total(disk)
      decreases |rest|
    {
      var f :| f in rest;
      TotalWithout(rest, f);
      total := total + rest[f];
      rest := rest - {f};
    }
  }

  // ---------------------------------------------------------------
  // what pruning leaves
  // ---------------------------------------------------------------

  predicate OldestFirst(ms: seq<Manifest>) {
    forall i, j :: 0 <= i < j < |ms| ==> ms[i].age >= ms[j].age
  }

  predicate Distinct(ms: seq<Manifest>) {
    forall i, j :: 0 <= i < j < |ms| ==> ms[i].id != ms[j].id
  }

  predicate Refers(ms: seq<Manifest>, output: Output) {
    exists m :: m in ms && m.output == output
  }

  /** Whether a file stays when the first `k` manifests go. */
  predicate Stays(ms: seq<Manifest>, k: nat, f: File)
    requires k <= |ms|
  {
    match f
    case Index(id) => forall m :: m in ms[..k] ==> m.id != id
    case Binary(output) => Refers(ms[..k], output) ==> Refers(ms[k..], output)
    case Lines(output) => Refers(ms[..k], output) ==> Refers(ms[k..], output)
  }

  function Left(ms: seq<Manifest>, k: nat, disk: Disk): Disk
    requires k <= |ms|
  {
    map f | f in disk && Stays(ms, k, f) :: disk[f]
  }

  /** With the first `k` manifests gone, the limits are met. */
  ghost predicate Meets(ms: seq<Manifest>, k: nat, disk: Disk, policy: Policy)
    requires k <= |ms|
  {
    && (forall m :: m in ms[k..] ==> m.age <= policy.maxAge)
    && Total(Left(ms, k, disk)) <= policy.maxSize
  }

  /** Binaries and line tables nobody refers to, unless they are recent. */
  predicate Orphan(ms: seq<Manifest>, ages: map<File, nat>, policy: Policy, f: File) {
    !f.Index? && !Refers(ms, f.output) && f in ages && ages[f] >= policy.touchInterval
  }

  function Swept(ms: seq<Manifest>, ages: map<File, nat>, policy: Policy, disk: Disk): Disk {
    map f | f in disk && !Orphan(ms, ages, policy, f) :: disk[f]
  }

  function Count(ms: seq<Manifest>, output: Output): nat {
    if ms == [] then 0 else (if ms[0].output == output then 1 else 0) + Count(ms[1..], output)
  }

  lemma {:induction false} CountRefers(ms: seq<Manifest>, output: Output)
    ensures Count(ms, output) > 0 <==> Refers(ms, output)
  {
    if ms != [] {
      CountRefers(ms[1..], output);
      assert ms == [ms[0]] + ms[1..];
    }
  }

  lemma TakeOne(ms: seq<Manifest>, k: nat)
    requires k < |ms|
    ensures ms[..k + 1] == ms[..k] + [ms[k]] && ms[k..] == [ms[k]] + ms[k + 1..]
    ensures ms[k..][1..] == ms[k + 1..]
  {
  }

  /** What one more manifest takes with it. */
  lemma LeftNext(ms: seq<Manifest>, k: nat, disk: Disk)
    requires k < |ms| && Distinct(ms)
    ensures Left(ms, k + 1, disk) ==
      if Refers(ms[k + 1..], ms[k].output) then Left(ms, k, disk) - {Index(ms[k].id)}
      else Left(ms, k, disk) - {Index(ms[k].id)} - {Binary(ms[k].output)} - {Lines(ms[k].output)}
  {
    var m := ms[k];
    TakeOne(ms, k);
    forall f: File ensures Stays(ms, k + 1, f) <==> Stays(ms, k, f) && f != Index(m.id) && (!f.Index? && f.output == m.output ==> Refers(ms[k + 1..], m.output)) {
      match f
      case Index(id) => assert forall n :: n in ms[..k + 1] <==> n in ms[..k] || n == m;
      case Binary(o) => RefersNext(ms, k, o);
      case Lines(o) => RefersNext(ms, k, o);
    }
  }

  lemma RefersNext(ms: seq<Manifest>, k: nat, o: Output)
    requires k < |ms|
    ensures Refers(ms[..k + 1], o) <==> Refers(ms[..k], o) || ms[k].output == o
    ensures Refers(ms[k..], o) <==> Refers(ms[k + 1..], o) || ms[k].output == o
  {
    TakeOne(ms, k);
    assert forall n :: n in ms[..k + 1] <==> n in ms[..k] || n == ms[k];
    assert forall n :: n in ms[k..] <==> n in ms[k + 1..] || n == ms[k];
  }

  /** While manifests are left, the test the pruner makes on the next one decides
      whether all that are left meet the limits. */
  lemma NextDecides(ms: seq<Manifest>, k: nat, disk: Disk, policy: Policy)
    requires k < |ms| && OldestFirst(ms)
    ensures Meets(ms, k, disk, policy) <==> ms[k].age <= policy.maxAge && Total(Left(ms, k, disk)) <= policy.maxSize
  {
    assert ms[k..][0] == ms[k];
    forall m | m in ms[k..] ensures m.age <= ms[k].age {
      var i :| 0 <= i < |ms[k..]| && ms[k..][i] == m;
      assert ms[k + i] == m;
    }
  }

  // ---------------------------------------------------------------
  // the pruner
  // ---------------------------------------------------------------

  method InsertByAge(ms: seq<Manifest>, m: Manifest) returns (r: seq<Manifest>)
    requires OldestFirst(ms) && Distinct(ms) && forall n :: n in ms ==> n.id != m.id
    ensures OldestFirst(r) && Distinct(r) && |r| == |ms| + 1
    ensures forall n :: n in r <==> n in ms || n == m
  {
    var i := 0;
    while i < |ms| && ms[i].age >= m.age
      invariant 0 <= i <= |ms|
      invariant forall k :: 0 <= k < i ==> ms[k].age >= m.age
    {
      i := i + 1;
    }
    r := ms[..i] + [m] + ms[i..];
    Inserted(ms, m, i, r);
  }

  lemma Inserted(ms: seq<Manifest>, m: Manifest, i: nat, r: seq<Manifest>)
    requires i <= |ms| && r == ms[..i] + [m] + ms[i..]
    requires OldestFirst(ms) && Distinct(ms) && forall n :: n in ms ==> n.id != m.id
    requires (forall k :: 0 <= k < i ==> ms[k].age >= m.age) && (i < |ms| ==> ms[i].age < m.age)
    ensures OldestFirst(r) && Distinct(r)
    ensures forall n :: n in r <==> n in ms || n == m
  {
    assert forall k :: 0 <= k < |r| ==> r[k] == if k < i then ms[k] else if k == i then m else ms[k - 1];
    InsertedSame(ms, m, i, r);
  }

  lemma InsertedSame(ms: seq<Manifest>, m: Manifest, i: nat, r: seq<Manifest>)
    requires i <= |ms| && r == ms[..i] + [m] + ms[i..]
    ensures forall n :: n in r <==> n in ms || n == m
  {
    assert ms == ms[..i] + ms[i..];
  }

  class Cache {
    var disk: Disk
    const ages: map<File, nat>
    /** What each manifest that parses refers to. */
    const outputs: map<nat, Output>

    constructor (disk: Disk, ages: map<File, nat>, outputs: map<nat, Output>)
      ensures this.disk == disk && this.ages == ages && this.outputs == outputs
    {
      this.disk, this.ages, this.outputs := disk, ages, outputs;
    }

    ghost predicate Lists(ms: seq<Manifest>, ids: set<nat>)
      reads this
    {
      && OldestFirst(ms) && Distinct(ms)
      && (forall m :: m in ms ==> m.id in ids && m.id in outputs && m.output == outputs[m.id] && m.age == Age(Index(m.id)))
      && (forall id :: id in ids && id in outputs ==> Manifest(id, Age(Index(id)), outputs[id]) in ms)
    }

    function Age(f: File): nat {
      if f in ages then ages[f] else 0
    }

    ghost function Ids(): set<nat>
      reads this
    {
      set f | f in disk && f.Index? :: f.id
    }

    /** The manifests there are, oldest first. */
    method ListManifests() returns (ms: seq<Manifest>)
      ensures Lists(ms, Ids())
    {
      ms := [];
      var todo := set f | f in disk && f.Index? :: f.id;
      ghost var done := {};
      while todo != {}
        invariant todo + done == Ids() && todo !! done
        invariant Lists(ms, done)
        decreases |todo|
      {
        var id :| id in todo;
        if id in outputs {
          ms := InsertByAge(ms, Manifest(id, Age(Index(id)), outputs[id]));
        }
        todo, done := todo - {id}, done + {id};
      }
      assert done == Ids();
    }

    method SweepOrphans(ms: seq<Manifest>, policy: Policy)
      modifies this
      ensures disk == Swept(ms, ages, policy, old(disk))
    {
      var todo := disk.Keys;
      while todo != {}
        invariant todo <= old(disk).Keys && disk.Keys <= old(disk).Keys
        invariant forall f :: f in old(disk) ==> (f in disk <==> f in todo || !Orphan(ms, ages, policy, f))
        invariant forall f :: f in disk ==> disk[f] == old(disk)[f]
        decreases |todo|
      {
        var f :| f in todo;
        if !f.Index? && !(exists m :: m in ms && m.output == f.output) && f in ages && ages[f] >= policy.touchInterval {
          disk := disk - {f};
        }
        todo := todo - {f};
      }
      assert disk == Swept(ms, ages, policy, old(disk));
    }

    /** Prunes the cache. The manifests that go are the shortest oldest-first
        prefix after which those left meet both limits, or all of them; a binary
        goes exactly with the last manifest that refers to it. */
    method Prune(policy: Policy) returns (ms: seq<Manifest>, k: nat)
      modifies this
      ensures Lists(ms, set f | f in old(disk) && f.Index? :: f.id)
      ensures k <= |ms| && disk == Left(ms, k, Swept(ms, ages, policy, old(disk)))
      ensures k < |ms| ==> Meets(ms, k, Swept(ms, ages, policy, old(disk)), policy)
      ensures forall j :: 0 <= j < k ==> !Meets(ms, j, Swept(ms, ages, policy, old(disk)), policy)
    {
      ms := ListManifests();
      SweepOrphans(ms, policy);
      k := Trim(ms, policy);
    }

    /** Removes manifests, oldest first, until the limits are met. */
    method Trim(ms: seq<Manifest>, policy: Policy) returns (k: nat)
      requires OldestFirst(ms) && Distinct(ms)
      modifies this
      ensures k <= |ms| && disk == Left(ms, k, old(disk))
      ensures k < |ms| ==> Meets(ms, k, old(disk), policy)
      ensures forall j :: 0 <= j < k ==> !Meets(ms, j, old(disk), policy)
    {
      hide Meets, Total, Left, Tallied, OldestFirst, Distinct;
      ghost var start := disk;
      var total := SumSizes(disk);
      var references := CountReferences(ms);
      LeftAll(ms, disk);
      k := 0;
      var i := 0;
      while i < |ms|
        invariant 0 <= k <= i <= |ms|
        invariant disk == Left(ms, k, start) && total == Total(disk)
        invariant k < i ==> Meets(ms, k, start, policy)
        invariant forall j :: 0 <= j < k ==> !Meets(ms, j, start, policy)
        invariant Tallied(references, ms, k)
      {
        NextDecides(ms, i, start, policy);
        if k < i {
          StillMet(ms, k, i, start, policy);
        }
        if !(ms[i].age <= policy.maxAge && total <= policy.maxSize) {
          total, references := RemoveManifest(ms, i, start, total, references);
          k := k + 1;
        }
        i := i + 1;
      }
    }

    /** Removes the next manifest, and its binary if no other refers to it. */
    method RemoveManifest(ms: seq<Manifest>, k: nat, ghost start: Disk, total: nat, references: map<Output, nat>)
      returns (total': nat, references': map<Output, nat>)
      requires k < |ms| && Distinct(ms) && disk == Left(ms, k, start) && total == Total(disk) && Tallied(references, ms, k)
      modifies this
      ensures disk == Left(ms, k + 1, start) && total' == Total(disk) && Tallied(references', ms, k + 1)
    {
      var m := ms[k];
      LeftNext(ms, k, start);
      TallyNext(references, ms, k);
      CountRefers(ms[k + 1..], m.output);
      hide Left, Total, Tallied, Refers, Count, Distinct;
      RemoveTotal(disk, Index(m.id));
      total' := SaturatingSub(total, Size(disk, Index(m.id)));
      disk := disk - {Index(m.id)};
      references' := references[m.output := references[m.output] - 1];
      if references'[m.output] == 0 {
        RemoveTotal(disk, Binary(m.output));
        RemoveTotal(disk - {Binary(m.output)}, Lines(m.output));
        total' := SaturatingSub(total', Size(disk, Binary(m.output)) + Size(disk, Lines(m.output)));
        disk := disk - {Binary(m.output)};
        disk := disk - {Lines(m.output)};
      }
    }
  }

  function SaturatingSub(a: nat, b: nat): nat {
    if a >= b then a - b else 0
  }

  /** The reference counts of the manifests that are left. */
  predicate Tallied(references: map<Output, nat>, ms: seq<Manifest>, k: nat)
    requires k <= |ms|
  {
    forall m :: m in ms ==> m.output in references && references[m.output] == Count(ms[k..], m.output)
  }

  lemma TallyNext(references: map<Output, nat>, ms: seq<Manifest>, k: nat)
    requires k < |ms| && Tallied(references, ms, k)
    ensures ms[k].output in references && references[ms[k].output] > 0
    ensures references[ms[k].output] - 1 == Count(ms[k + 1..], ms[k].output)
    ensures Tallied(references[ms[k].output := references[ms[k].output] - 1], ms, k + 1)
  {
    TakeOne(ms, k);
    assert ms[k] in ms;
  }

  method CountReferences(ms: seq<Manifest>) returns (references: map<Output, nat>)
    ensures Tallied(references, ms, 0)
  {
    references := map[];
    var k := |ms|;
    assert forall m :: m in ms[k..] ==> false;
    while k > 0
      invariant 0 <= k <= |ms|
      invariant forall o :: Count(ms[k..], o) == if o in references then references[o] else 0
      invariant forall m :: m in ms[k..] ==> m.output in references
    {
      k := k - 1;
      TakeOne(ms, k);
      var o := ms[k].output;
      references := references[o := (if o in references then references[o] else 0) + 1];
    }
    assert ms[0..] == ms;
  }

  lemma LeftAll(ms: seq<Manifest>, disk: Disk)
    ensures Left(ms, 0, disk) == disk
  {
    assert ms[..0] == [];
  }

  /** Limits that are met stay met for the manifests further on. */
  lemma StillMet(ms: seq<Manifest>, k: nat, i: nat, disk: Disk, policy: Policy)
    requires k <= i < |ms| && Meets(ms, k, disk, policy)
    ensures ms[i].age <= policy.maxAge && Total(Left(ms, k, disk)) <= policy.maxSize
  {
    assert ms[k..][i - k] == ms[i];
  }

  // ---------------------------------------------------------------
  // what stays whole
  // ---------------------------------------------------------------

  /** A manifest that is left still has its binary and line tables, if it had
      them; a binary whose manifests all went is gone with them; and files no
      manifest speaks of stay. */
  lemma NothingDangles(ms: seq<Manifest>, k: nat, disk: Disk, policy: Policy, ages: map<File, nat>, m: Manifest, f: File)
    requires k <= |ms| && m in ms && !f.Index? && f.output == m.output
    ensures var after := Left(ms, k, Swept(ms, ages, policy, disk));
      && (m in ms[k..] && f in disk ==> f in after && after[f] == disk[f])
      && (f in after ==> Refers(ms[k..], m.output))
  {
    if m !in ms[k..] {
      assert ms == ms[..k] + ms[k..];
    }
  }
}
