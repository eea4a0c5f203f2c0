/**
 The guard that compares the first-party Lean files that exist with those that a build target
 reaches through imports: a worklist over module names.
 */
module LeanReachable {
  import opened Arith

  type Module = string
  type File = string

  /**
   `population` lists the first-party files. `onDisk` maps every file that exists to the
   modules its header imports, or to none when the header is not understood. `resolve` gives
   the file a module name stands for.
   */
  datatype Project = Project(
    population: seq<File>, onDisk: map<File, Option<seq<Module>>>, resolve: Module -> File)
  {
    function Imports(f: File): seq<Module> {
      if f in onDisk && onDisk[f].Some? then onDisk[f].value else []
    }

    predicate Understood(f: File) {
      f in onDisk ==> onDisk[f].Some?
    }
  }

  // ---- What reachable means ----

  /** One of the modules resolves to the file, which exists. */
  predicate Leads(p: Project, modules: seq<Module>, f: File) {
    f in p.onDisk && exists i | 0 <= i < |modules| :: p.resolve(modules[i]) == f
  }

  /** A chain of imports that begins at a root. */
  predicate Chain(p: Project, roots: seq<Module>, path: seq<File>) {
    && path != []
    && Leads(p, roots, path[0])
    && forall i | 0 <= i < |path| - 1 :: Leads(p, p.Imports(path[i]), path[i + 1])
  }

  ghost predicate Reachable(p: Project, roots: seq<Module>, f: File) {
    exists path: seq<File> :: Chain(p, roots, path) && path[|path| - 1] == f
  }

  /** The set has the roots and, with each file, what it imports. */
  ghost predicate Closed(p: Project, roots: seq<Module>, s: set<File>) {
    && (forall f | Leads(p, roots, f) :: f in s)
    && (forall f, g | f in s && Leads(p, p.Imports(f), g) :: g in s)
  }

  lemma RootReachable(p: Project, roots: seq<Module>, f: File)
    requires Leads(p, roots, f)
    ensures Reachable(p, roots, f)
  {
    assert Chain(p, roots, [f]) && [f][|[f]| - 1] == f;
  }

  lemma ImportReachable(p: Project, roots: seq<Module>, f: File, g: File)
    requires Reachable(p, roots, f) && Leads(p, p.Imports(f), g)
    ensures Reachable(p, roots, g)
  {
    var path: seq<File> :| Chain(p, roots, path) && path[|path| - 1] == f;
    var longer := path + [g];
    assert Chain(p, roots, longer) && longer[|longer| - 1] == g;
  }

  lemma {:induction false} ChainStaysInside(p: Project, roots: seq<Module>, s: set<File>, path: seq<File>)
    requires Closed(p, roots, s) && Chain(p, roots, path)
    ensures path[|path| - 1] in s
    decreases |path|
  {
    var n := |path| - 1;
    if 0 < n {
      var before := path[..n];
      forall i | 0 <= i < n - 1 ensures Leads(p, p.Imports(before[i]), before[i + 1]) {
        assert Leads(p, p.Imports(path[i]), path[i + 1]);
      }
      ChainStaysInside(p, roots, s, before);
      assert Leads(p, p.Imports(path[n - 1]), path[n]);
    }
  }

  /** The reachable files are the least set that is closed under roots and imports. */
  lemma ReachableIsLeast(p: Project, roots: seq<Module>, s: set<File>, f: File)
    requires Closed(p, roots, s) && Reachable(p, roots, f)
    ensures f in s
  {
    var path: seq<File> :| Chain(p, roots, path) && path[|path| - 1] == f;
    ChainStaysInside(p, roots, s, path);
  }

  // ---- The worklist ----

  /** Whatever is still on the stack would be reached. */
  ghost predicate Justified(p: Project, roots: seq<Module>, todo: seq<Module>) {
    forall f | Leads(p, todo, f) :: Reachable(p, roots, f)
  }

  /** What a set of modules leads to is in `reached` or still to be visited. */
  ghost predicate Pending(p: Project, modules: seq<Module>, reached: set<File>, todo: seq<Module>) {
    forall f | Leads(p, modules, f) :: f in reached || Leads(p, todo, f)
  }

  lemma LeadsAppend(p: Project, a: seq<Module>, b: seq<Module>, f: File)
    ensures Leads(p, a + b, f) <==> Leads(p, a, f) || Leads(p, b, f)
  {
    if Leads(p, a, f) {
      var i :| 0 <= i < |a| && p.resolve(a[i]) == f;
      assert p.resolve((a + b)[i]) == f;
    }
    if Leads(p, b, f) {
      var i :| 0 <= i < |b| && p.resolve(b[i]) == f;
      assert p.resolve((a + b)[|a| + i]) == f;
    }
    if Leads(p, a + b, f) {
      var i :| 0 <= i < |a + b| && p.resolve((a + b)[i]) == f;
      assert if i < |a| then (a + b)[i] == a[i] else (a + b)[i] == b[i - |a|];
    }
  }

  lemma PendingMoves(p: Project, modules: seq<Module>, reached: set<File>, todo: seq<Module>,
                     reached': set<File>, todo': seq<Module>)
    requires Pending(p, modules, reached, todo) && reached <= reached'
    requires forall f | Leads(p, todo, f) :: f in reached' || Leads(p, todo', f)
    ensures Pending(p, modules, reached', todo')
  {
  }

  /** What holds between two turns of the loop. */
  ghost predicate Explored(p: Project, roots: seq<Module>, reached: set<File>, todo: seq<Module>) {
    && reached <= p.onDisk.Keys
    && (forall f | f in reached :: Reachable(p, roots, f) && p.Understood(f))
    && Justified(p, roots, todo)
    && Pending(p, roots, reached, todo)
    && forall f | f in reached :: Pending(p, p.Imports(f), reached, todo)
  }

  lemma LeadsOne(p: Project, m: Module, f: File)
    ensures Leads(p, [m], f) <==> f in p.onDisk && p.resolve(m) == f
  {
    assert [m][0] == m;
  }

  lemma LeadsPopped(p: Project, todo: seq<Module>, f: File)
    requires todo != []
    ensures var n := |todo| - 1;
      Leads(p, todo, f) <==> Leads(p, todo[..n], f) || (f in p.onDisk && p.resolve(todo[n]) == f)
  {
    var n := |todo| - 1;
    LeadsAppend(p, todo[..n], [todo[n]], f);
    LeadsOne(p, todo[n], f);
    assert todo[..n] + [todo[n]] == todo;
  }

  /** Any step that accounts for what the stack led to keeps the exploration consistent. */
  lemma StackReplaced(p: Project, roots: seq<Module>, reached: set<File>, todo: seq<Module>,
                      reached': set<File>, todo': seq<Module>)
    requires Explored(p, roots, reached, todo) && reached <= reached'
    requires forall f | Leads(p, todo, f) :: f in reached' || Leads(p, todo', f)
    ensures Pending(p, roots, reached', todo')
    ensures forall h | h in reached :: Pending(p, p.Imports(h), reached', todo')
  {
    PendingMoves(p, roots, reached, todo, reached', todo');
    forall h | h in reached ensures Pending(p, p.Imports(h), reached', todo') {
      PendingMoves(p, p.Imports(h), reached, todo, reached', todo');
    }
  }

  /** A module that was seen before, or that is not first-party. */
  lemma SkipKeeps(p: Project, roots: seq<Module>, reached: set<File>, todo: seq<Module>)
    requires Explored(p, roots, reached, todo) && todo != []
    requires var f := p.resolve(todo[|todo| - 1]); f in reached || f !in p.onDisk
    ensures Explored(p, roots, reached, todo[..|todo| - 1])
  {
    var rest := todo[..|todo| - 1];
    forall g ensures Leads(p, todo, g) <==> Leads(p, rest, g) || (g in p.onDisk && p.resolve(todo[|todo| - 1]) == g) {
      LeadsPopped(p, todo, g);
    }
    StackReplaced(p, roots, reached, todo, reached, rest);
  }

  /** A first-party file that is visited for the first time. */
  lemma VisitKeeps(p: Project, roots: seq<Module>, reached: set<File>, todo: seq<Module>, f: File)
    requires Explored(p, roots, reached, todo) && todo != [] && f == p.resolve(todo[|todo| - 1])
    requires f in p.onDisk
    ensures Reachable(p, roots, f)
    ensures p.Understood(f) ==> Explored(p, roots, reached + {f}, todo[..|todo| - 1] + p.Imports(f))
  {
    var rest, imports := todo[..|todo| - 1], p.Imports(f);
    var todo' := rest + imports;
    LeadsPopped(p, todo, f);
    forall g ensures Leads(p, todo', g) <==> Leads(p, rest, g) || Leads(p, imports, g) { LeadsAppend(p, rest, imports, g); }
    forall g ensures Leads(p, todo, g) <==> Leads(p, rest, g) || g == f { LeadsPopped(p, todo, g); }
    forall g | Leads(p, imports, g) ensures Reachable(p, roots, g) { ImportReachable(p, roots, f, g); }
    StackReplaced(p, roots, reached, todo, reached + {f}, todo');
  }

  /** Visits modules from the stack until it is empty, or stops at a file that is not understood. */
  method Reach(p: Project, roots: seq<Module>) returns (understood: bool, reached: set<File>)
    ensures understood ==> forall f: File :: f in reached <==> Reachable(p, roots, f)
    ensures understood <==> forall f: File | Reachable(p, roots, f) :: p.Understood(f)
  {
    reached := {};
    var todo := roots;
    forall f | Leads(p, roots, f) ensures Reachable(p, roots, f) { RootReachable(p, roots, f); }
    while todo != []
      invariant Explored(p, roots, reached, todo)
      decreases p.onDisk.Keys - reached, |todo|
    {
      var n := |todo| - 1;
      var f := p.resolve(todo[n]);
      if f in reached || f !in p.onDisk {
        SkipKeeps(p, roots, reached, todo);
        todo := todo[..n];
      } else {
        VisitKeeps(p, roots, reached, todo, f);
        if p.onDisk[f].None? {
          return false, reached;
        }
        reached := reached + {f};
        todo := todo[..n] + p.onDisk[f].value;
      }
    }
    EmptyStackClosed(p, roots, reached);
    understood := true;
  }

  lemma EmptyStackClosed(p: Project, roots: seq<Module>, reached: set<File>)
    requires Explored(p, roots, reached, [])
    ensures forall f: File :: f in reached <==> Reachable(p, roots, f)
  {
    assert forall f :: !Leads(p, [], f);
    assert Closed(p, roots, reached);
    forall f | Reachable(p, roots, f) ensures f in reached { ReachableIsLeast(p, roots, reached, f); }
  }

  /** The files of the population that are not in the set, in order. */
  function Missing(population: seq<File>, reached: set<File>): seq<File> {
    if population == [] then []
    else
      (if population[0] in reached then [] else [population[0]]) + Missing(population[1..], reached)
  }

  lemma {:induction false} MissingMeans(population: seq<File>, reached: set<File>)
    ensures forall f :: f in Missing(population, reached) <==> f in population && f !in reached
  {
    if population != [] { MissingMeans(population[1..], reached); }
  }

  /**
   The exit code: 2 when the measurement cannot be trusted, otherwise 1 exactly if some
   first-party file is not reachable. `roots` is none when the targets are not understood.
   */
  method Check(p: Project, roots: Option<seq<Module>>) returns (code: int, unreachable: seq<File>)
    ensures code == 2 <==>
      p.population == [] || roots == None || exists f: File :: Reachable(p, roots.value, f) && !p.Understood(f)
    ensures code != 2 ==> (code == 1 <==> exists f :: f in p.population && !Reachable(p, roots.value, f))
    ensures code != 2 ==> (forall f :: f in unreachable <==> f in p.population && !Reachable(p, roots.value, f))
    ensures code in {0, 1, 2}
  {
    unreachable := [];
    if p.population == [] || roots == None {
      return 2, [];
    }
    var understood, reached := Reach(p, roots.value);
    if !understood {
      return 2, [];
    }
    unreachable := Missing(p.population, reached);
    MissingMeans(p.population, reached);
    if unreachable != [] {
      assert unreachable[0] in unreachable;
      return 1, unreachable;
    }
    return 0, unreachable;
  }
}
