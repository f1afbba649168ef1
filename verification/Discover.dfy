/** Discovery of the files a program uses: a depth-first walk of the `use` graph
    that lists every file after the files it uses and refuses cycles. */
module Discovery {

  type Path = nat

  /** What a `use` declaration resolves to. */
  datatype Use = To(path: Path) | Unresolvable

  /** A file that exists: it parses, or it does not. */
  datatype File = Source(uses: seq<Use>) | Broken

  /** The files there are; a path outside the map does not exist. */
  type World = map<Path, File>

  datatype Problem = Circular(path: Path) | NotFound(path: Path) | NotParsed(path: Path) | NotResolved

  datatype Result = Ok | Err(problem: Problem)

  // ---------------------------------------------------------------
  // the graph
  // ---------------------------------------------------------------

  ghost predicate Edge(world: World, f: Path, g: Path) {
    f in world && world[f].Source? && To(g) in world[f].uses
  }

  ghost predicate Chain(world: World, p: seq<Path>) {
    p != [] && forall i, j :: 0 <= i && j == i + 1 && j < |p| ==> Edge(world, p[i], p[j])
  }

  ghost predicate Reaches(world: World, f: Path, g: Path) {
    exists p: seq<Path> :: Chain(world, p) && p[0] == f && p[|p| - 1] == g
  }

  /** Back to where it started, in at least one step. */
  ghost predicate OnCycle(world: World, f: Path) {
    exists p: seq<Path> :: Chain(world, p) && |p| > 1 && p[0] == f && p[|p| - 1] == f
  }

  /** The problem is really there, somewhere the declaration leads to. */
  ghost predicate Justified(world: World, u: Use, problem: Problem) {
    match problem
    case Circular(p) => u.To? && Reaches(world, u.path, p) && OnCycle(world, p)
    case NotFound(p) => u.To? && Reaches(world, u.path, p) && p !in world
    case NotParsed(p) => u.To? && Reaches(world, u.path, p) && p in world && world[p].Broken?
    case NotResolved => u.Unresolvable? || exists p :: Reaches(world, u.path, p) && p in world && world[p].Source? && Unresolvable in world[p].uses
  }

  /** Nothing a declaration leads to is missing, broken, unresolvable or on a
      cycle. */
  ghost predicate Clean(world: World, u: Use) {
    && u.To?
    && forall p :: Reaches(world, u.path, p) ==>
      p in world && world[p].Source? && Unresolvable !in world[p].uses && !OnCycle(world, p)
  }

  lemma ReachesSelf(world: World, f: Path)
    ensures Reaches(world, f, f)
  {
    assert Chain(world, [f]);
  }

  lemma ReachesVia(world: World, f: Path, g: Path, h: Path)
    requires Edge(world, f, g) && Reaches(world, g, h)
    ensures Reaches(world, f, h)
  {
    var p :| Chain(world, p) && p[0] == g && p[|p| - 1] == h;
    var q := [f] + p;
    assert Chain(world, q) by {
      forall i, j | 0 <= i && j == i + 1 && j < |q| ensures Edge(world, q[i], q[j]) {
        if i > 0 {
          assert q[i] == p[i - 1] && q[j] == p[j - 1];
        }
      }
    }
    assert q[|q| - 1] == h;
  }

  lemma JustifiedVia(world: World, f: Path, u: Use, problem: Problem)
    requires f in world && world[f].Source? && u in world[f].uses && Justified(world, u, problem)
    ensures Justified(world, To(f), problem)
  {
    ReachesSelf(world, f);
    if u.To? {
      assert Edge(world, f, u.path);
      match problem
      case Circular(p) => ReachesVia(world, f, u.path, p);
      case NotFound(p) => ReachesVia(world, f, u.path, p);
      case NotParsed(p) => ReachesVia(world, f, u.path, p);
      case NotResolved =>
        var p :| Reaches(world, u.path, p) && p in world && world[p].Source? && Unresolvable in world[p].uses;
        ReachesVia(world, f, u.path, p);
    }
  }

  lemma JustifiedNotClean(world: World, u: Use, problem: Problem)
    requires Justified(world, u, problem)
    ensures !Clean(world, u)
  {
  }

  // ---------------------------------------------------------------
  // lists in which files come after what they use
  // ---------------------------------------------------------------

  /** Every file once, after all the files it uses, and none with a problem. */
  ghost predicate Ordered(world: World, files: seq<Path>) {
    && (forall i, j :: 0 <= i < j < |files| ==> files[i] != files[j])
    && (forall i :: 0 <= i < |files| ==> files[i] in world && world[files[i]].Source? && Unresolvable !in world[files[i]].uses)
    && (forall i, g :: 0 <= i < |files| && Edge(world, files[i], g) ==> g in files[..i])
  }

  /** From a listed file, chains lead only to files listed before it. */
  lemma {:induction false} ChainDown(world: World, files: seq<Path>, p: seq<Path>, i: nat) returns (j: nat)
    requires Ordered(world, files) && Chain(world, p) && i < |files| && p[0] == files[i]
    ensures j <= i && files[j] == p[|p| - 1] && (|p| > 1 ==> j < i)
    decreases |p|
  {
    if |p| == 1 {
      j := i;
    } else {
      assert Edge(world, p[0], p[1]);
      var k :| 0 <= k < i && files[k] == p[1];
      var rest := p[1..];
      assert Chain(world, rest) by {
        forall a, b | 0 <= a && b == a + 1 && b < |rest| ensures Edge(world, rest[a], rest[b]) {
          assert rest[a] == p[a + 1] && rest[b] == p[b + 1];
        }
      }
      j := ChainDown(world, files, rest, k);
    }
  }

  lemma ListedClean(world: World, files: seq<Path>, f: Path)
    requires Ordered(world, files) && f in files
    ensures Clean(world, To(f))
    ensures forall g :: Reaches(world, f, g) ==> g in files
  {
    var i :| 0 <= i < |files| && files[i] == f;
    forall g | Reaches(world, f, g)
      ensures g in files && g in world && world[g].Source? && Unresolvable !in world[g].uses && !OnCycle(world, g)
    {
      var p :| Chain(world, p) && p[0] == f && p[|p| - 1] == g;
      var j := ChainDown(world, files, p, i);
      assert files[j] == g;
      if OnCycle(world, g) {
        var q :| Chain(world, q) && |q| > 1 && q[0] == g && q[|q| - 1] == g;
        var k := ChainDown(world, files, q, j);
      }
    }
  }

  /** What one declaration adds: files it leads to, behind those already there. */
  ghost predicate Extends(world: World, u: Use, before: seq<Path>, after: seq<Path>) {
    before <= after && u.To? && forall f :: f in after && f !in before ==> Reaches(world, u.path, f)
  }

  lemma ExtendsVia(world: World, f: Path, u: Use, before: seq<Path>, now: seq<Path>, after: seq<Path>)
    requires f in world && world[f].Source? && u in world[f].uses
    requires Extends(world, To(f), before, now) && Extends(world, u, now, after)
    ensures Extends(world, To(f), before, after)
  {
    assert Edge(world, f, u.path);
    forall g | g in after && g !in before ensures Reaches(world, f, g) {
      if g !in now {
        ReachesVia(world, f, u.path, g);
      }
    }
  }

  // ---------------------------------------------------------------
  // the walk
  // ---------------------------------------------------------------

  /** What the walk has found so far and the files it is in the middle of. */
  ghost predicate Sound(world: World, discovered: seq<Path>, resolved: set<Path>, onStack: seq<Path>) {
    && Ordered(world, discovered)
    && resolved == (set f | f in discovered)
    && (forall i, j :: 0 <= i < j < |onStack| ==> onStack[i] != onStack[j])
    && (forall f :: f in onStack ==> f in world && f !in resolved)
    && (onStack == [] || Chain(world, onStack))
  }

  ghost function Outside(world: World, stack: seq<Path>): set<Path> {
    set f | f in world && f !in stack
  }

  lemma FewerOutside(world: World, stack: seq<Path>, file: Path)
    requires file in world && file !in stack
    ensures |Outside(world, stack + [file])| < |Outside(world, stack)|
  {
    assert Outside(world, stack + [file]) == Outside(world, stack) - {file};
    Smaller(Outside(world, stack + [file]), Outside(world, stack));
  }

  lemma PushSound(world: World, discovered: seq<Path>, resolved: set<Path>, stack: seq<Path>, file: Path)
    requires Sound(world, discovered, resolved, stack) && file in world && file !in stack && file !in resolved
    requires stack == [] || Edge(world, stack[|stack| - 1], file)
    ensures Sound(world, discovered, resolved, stack + [file])
  {
    var p := stack + [file];
    forall a, b | 0 <= a && b == a + 1 && b < |p| ensures Edge(world, p[a], p[b]) {
      assert p[a] == stack[a];
      if b < |stack| {
        assert p[b] == stack[b];
      }
    }
    forall f | f in p ensures f in world && f !in resolved {
      if f != file {
        assert f in stack;
      }
    }
  }

  lemma PopSound(world: World, discovered: seq<Path>, resolved: set<Path>, stack: seq<Path>, file: Path)
    requires Sound(world, discovered, resolved, stack + [file]) && file in world && world[file].Source?
    requires forall k :: 0 <= k < |world[file].uses| ==> world[file].uses[k].To? && world[file].uses[k].path in resolved
    ensures Sound(world, discovered + [file], resolved + {file}, stack)
  {
    var p := stack + [file];
    assert p[|stack|] == file && file in p;
    ListBehind(world, discovered, file);
    StackPrefix(world, stack, file);
    assert resolved + {file} == (set f | f in discovered + [file]);
    forall i, j | 0 <= i < j < |stack| ensures stack[i] != stack[j] {
      assert p[i] != p[j];
    }
    forall f | f in stack ensures f in world && f !in resolved + {file} {
      var i :| 0 <= i < |stack| && stack[i] == f;
      assert p[i] != p[|stack|];
    }
  }

  lemma ExtendsBy(world: World, before: seq<Path>, after: seq<Path>, f: Path)
    requires Extends(world, To(f), before, after)
    ensures Extends(world, To(f), before, after + [f])
  {
    ReachesSelf(world, f);
  }

  class Walk {
    const world: World
    var discovered: seq<Path>
    var resolved: set<Path>
    var onStack: seq<Path>

    ghost predicate Valid()
      reads this
    {
      Sound(world, discovered, resolved, onStack)
    }

    /** The declaration stands in the file on top of the stack. */
    ghost predicate Reading(u: Use)
      reads this
    {
      onStack == [] || (var f := onStack[|onStack| - 1]; f in world && world[f].Source? && u in world[f].uses)
    }

    ghost function Unvisited(): set<Path>
      reads this
    {
      Outside(world, onStack)
    }

    constructor (world: World)
      ensures this.world == world && Valid() && discovered == [] && onStack == []
    {
      this.world := world;
      discovered, resolved, onStack := [], {}, [];
    }

    method DiscoverOne(u: Use) returns (r: Result)
      requires Valid() && Reading(u)
      modifies this
      ensures r.Ok? ==> Valid() && onStack == old(onStack) && Extends(world, u, old(discovered), discovered) && u.path in resolved
      ensures r.Err? ==> Justified(world, u, r.problem)
      decreases |Unvisited()|, 1, 0
    {
      if u.Unresolvable? {
        return Err(NotResolved);
      }
      var file := u.path;
      ReachesSelf(world, file);
      if file in resolved {
        return Ok;
      }
      if file in onStack {
        StackCycle(u);
        return Err(Circular(file));
      }
      if file !in world {
        return Err(NotFound(file));
      }
      if world[file].Broken? {
        return Err(NotParsed(file));
      }
      r := DiscoverFile(file);
    }

    /** Reads a file and everything it uses, and lists it behind them. */
    method DiscoverFile(file: Path) returns (r: Result)
      requires Valid() && Reading(To(file)) && file in world && world[file].Source? && file !in onStack && file !in resolved
      modifies this
      ensures r.Ok? ==> Valid() && onStack == old(onStack) && Extends(world, To(file), old(discovered), discovered) && file in resolved
      ensures r.Err? ==> Justified(world, To(file), r.problem)
      decreases |Unvisited()|, 0, 0
    {
      ghost var stack := onStack;
      assert stack == [] || Edge(world, stack[|stack| - 1], file) by {
        hide Sound;
      }
      hide Sound, Justified, Extends, Outside;
      PushSound(world, discovered, resolved, stack, file);
      FewerOutside(world, stack, file);
      onStack := onStack + [file];
      r := ReadUses(file);
      if r.Err? {
        return;
      }
      onStack := onStack[..|onStack| - 1];
      assert onStack == stack;
      PopSound(world, discovered, resolved, stack, file);
      ExtendsBy(world, old(discovered), discovered, file);
      resolved := resolved + {file};
      discovered := discovered + [file];
    }

    /** Discovers what the file on top of the stack uses. */
    method ReadUses(file: Path) returns (r: Result)
      requires Valid() && onStack != [] && onStack[|onStack| - 1] == file && file in world && world[file].Source?
      modifies this
      ensures r.Ok? ==> Valid() && onStack == old(onStack) && Extends(world, To(file), old(discovered), discovered)
      ensures r.Ok? ==> forall k :: 0 <= k < |world[file].uses| ==> world[file].uses[k].To? && world[file].uses[k].path in resolved
      ensures r.Err? ==> Justified(world, To(file), r.problem)
      decreases |Unvisited()|, 2, 0
    {
      hide Ordered, Chain, Justified, Reaches;
      ghost var stack := onStack;
      var uses := world[file].uses;
      r := Ok;
      var i := 0;
      while i < |uses|
        invariant 0 <= i <= |uses| && Valid() && onStack == stack && r.Ok?
        invariant Extends(world, To(file), old(discovered), discovered)
        invariant forall k :: 0 <= k < i ==> uses[k].To? && uses[k].path in discovered
        decreases |uses| - i
      {
        ghost var now := discovered;
        r := DiscoverOne(uses[i]);
        if r.Err? {
          JustifiedVia(world, file, uses[i], r.problem);
          return;
        }
        ExtendsVia(world, file, uses[i], old(discovered), now, discovered);
        i := i + 1;
      }
    }

    /** A file met again while it is being read lies on a cycle. */
    lemma StackCycle(u: Use)
      requires Valid() && Reading(u) && u.To? && u.path in onStack
      ensures OnCycle(world, u.path)
    {
      var i :| 0 <= i < |onStack| && onStack[i] == u.path;
      var p := onStack[i..] + [u.path];
      assert Chain(world, p) by {
        forall a, b | 0 <= a && b == a + 1 && b < |p| ensures Edge(world, p[a], p[b]) {
          assert p[a] == onStack[i + a];
          if b < |p| - 1 {
            assert p[b] == onStack[i + b];
          }
        }
      }
      var n := |onStack| - i;
      assert |p| == n + 1 && p[0] == onStack[i] && p[n] == u.path;
    }
  }

  lemma Smaller<T>(a: set<T>, b: set<T>)
    requires a < b
    ensures |a| < |b|
  {
    SmallerOrSame(a, b);
    if |a| == |b| {
      var x :| x in b && x !in a;
      SmallerOrSame(a, b - {x});
    }
  }

  lemma {:induction false} SmallerOrSame<T>(a: set<T>, b: set<T>)
    requires a <= b
    ensures |a| <= |b|
  {
    if a != {} {
      var x :| x in a;
      SmallerOrSame(a - {x}, b - {x});
    }
  }

  lemma ListBehind(world: World, files: seq<Path>, f: Path)
    requires Ordered(world, files) && f !in files && f in world && world[f].Source?
    requires forall k :: 0 <= k < |world[f].uses| ==> world[f].uses[k].To? && world[f].uses[k].path in files
    ensures Ordered(world, files + [f])
  {
    var list := files + [f];
    forall i, g | 0 <= i < |list| && Edge(world, list[i], g) ensures g in list[..i] {
      if i < |files| {
        assert list[..i] == files[..i];
      } else {
        assert list[..i] == files;
      }
    }
  }

  lemma StackPrefix(world: World, stack: seq<Path>, f: Path)
    requires Chain(world, stack + [f])
    ensures stack == [] || Chain(world, stack)
  {
    forall a, b | 0 <= a && b == a + 1 && b < |stack| ensures Edge(world, stack[a], stack[b]) {
      assert stack[a] == (stack + [f])[a] && stack[b] == (stack + [f])[b];
    }
  }

  /** Discovery succeeds exactly when nothing the entry file leads to is missing,
      broken, unresolvable or on a cycle; it then lists exactly the files reached,
      each once and after everything it uses. Otherwise the problem it reports is
      really there. */
  method Discover(world: World, entry: seq<Use>) returns (r: Result, files: seq<Path>)
    ensures r.Ok? <==> forall u :: u in entry ==> Clean(world, u)
    ensures r.Ok? ==> Ordered(world, files)
    ensures r.Ok? ==> forall f :: f in files <==> exists u :: u in entry && u.To? && Reaches(world, u.path, f)
    ensures r.Err? ==> exists u :: u in entry && Justified(world, u, r.problem)
  {
    var walk := new Walk(world);
    files := [];
    var i := 0;
    while i < |entry|
      invariant 0 <= i <= |entry| && walk.Valid() && walk.onStack == [] && walk.world == world
      invariant forall k :: 0 <= k < i ==> entry[k].To? && entry[k].path in walk.discovered
      invariant forall f :: f in walk.discovered ==> exists u :: u in entry && u.To? && Reaches(world, u.path, f)
    {
      ghost var now := walk.discovered;
      r := walk.DiscoverOne(entry[i]);
      if r.Err? {
        assert entry[i] in entry;
        JustifiedNotClean(world, entry[i], r.problem);
        return;
      }
      forall f | f in walk.discovered ensures exists u :: u in entry && u.To? && Reaches(world, u.path, f) {
        if f !in now {
          assert entry[i] in entry;
        }
      }
      i := i + 1;
    }
    files := walk.discovered;
    r := Ok;
    forall u | u in entry ensures Clean(world, u) && forall g :: Reaches(world, u.path, g) ==> g in files {
      ListedClean(world, files, u.path);
    }
  }
}
