/** `piper.config.reader`: find the uppermost pipe above a directory, read it and every
    pipe nested below it, index them by name and link their dependencies. */
module PiperReader {
  import opened Wrappers
  import opened Dicts
  import opened Paths
  import opened Yaml
  import opened FileTree
  import opened Pipes
  import opened Flattening
  import opened DependencyLinks

  /** The unit file of a pipe. */
  const PipeFile: string := "pipe.yml"

  /** `_has_pipe`: the directory directly holds a pipe file. */
  predicate HasPipe(fs: Dir, location: Path) {
    HasFile(fs, location, PipeFile)
  }

  /** `_has_pipe` looks only at the directory itself: two trees whose directory at
      `location` lists the same files agree on it, whatever lies below that directory. */
  lemma HasPipeIsLocal(fs: Dir, other: Dir, location: Path)
    requires Lookup(fs, location).Some? && Lookup(other, location).Some?
    requires Lookup(fs, location).value.files == Lookup(other, location).value.files
    ensures HasPipe(fs, location) == HasPipe(other, location)
  {
  }

  /** `get_pipe_name`: the base name of a pipe's directory. */
  function GetPipeName(location: string): (name: string)
    ensures '/' !in name
  {
    BaseName(location)
  }

  /** A pipe in a directory below the root is named after that directory. */
  lemma GetPipeNameOfDirectory(p: Path)
    requires p != [] && ValidPath(p)
    ensures GetPipeName(Render(p)) == p[|p| - 1]
    ensures GetPipeName(Render(p) + "/") == p[|p| - 1]
  {
    BaseNameOfRender(p);
    BaseNameIgnoresTrailingSeparator(Render(p));
  }

  /** What reading the pipe file of `location` yields: its configuration, or the error
      opening or reading it raises. */
  function PipeConfigAt(fs: Dir, location: Path): (r: Result<PipeConfig, PipeError>)
    ensures r.Success? ==> HasPipe(fs, location)
    ensures !HasPipe(fs, location) ==> r.Failure? && r.error.NoPipeFile?
  {
    if !HasPipe(fs, location) then Failure(NoPipeFile(Join(Render(location), PipeFile)))
    else ParsePipeConfig(LoadDocument(Lookup(fs, location).value.files[PipeFile]))
  }

  /** Reading the pipe files of `locations` in order: all configurations, or the error of
      the first that fails. */
  function PipeConfigsAt(fs: Dir, locations: seq<Path>): (r: Result<seq<PipeConfig>, PipeError>)
    ensures r.Success? <==> forall i :: 0 <= i < |locations| ==> PipeConfigAt(fs, locations[i]).Success?
    ensures r.Success? ==>
      |r.value| == |locations| && forall i :: 0 <= i < |locations| ==> r.value[i] == PipeConfigAt(fs, locations[i]).value
    ensures r.Failure? ==> exists i :: 0 <= i < |locations| && PipeConfigAt(fs, locations[i]).Failure?
                                       && r.error == PipeConfigAt(fs, locations[i]).error
  {
    if locations == [] then Success([])
    else
      var c :- PipeConfigAt(fs, locations[0]);
      var cs :- PipeConfigsAt(fs, locations[1..]);
      Success([c] + cs)
  }

  /** Reading two runs of pipe files one after the other. */
  lemma {:induction false} PipeConfigsAtConcat(fs: Dir, a: seq<Path>, b: seq<Path>)
    ensures PipeConfigsAt(fs, a).Failure? ==> PipeConfigsAt(fs, a + b) == PipeConfigsAt(fs, a)
    ensures PipeConfigsAt(fs, a).Success? && PipeConfigsAt(fs, b).Failure? ==>
      PipeConfigsAt(fs, a + b) == PipeConfigsAt(fs, b)
    ensures PipeConfigsAt(fs, a).Success? && PipeConfigsAt(fs, b).Success? ==>
      PipeConfigsAt(fs, a + b) == Success(PipeConfigsAt(fs, a).value + PipeConfigsAt(fs, b).value)
  {
    if a == [] {
      assert a + b == b;
      assert PipeConfigsAt(fs, a) == Success([]);
      if PipeConfigsAt(fs, b).Success? {
        assert [] + PipeConfigsAt(fs, b).value == PipeConfigsAt(fs, b).value;
      }
    } else {
      var a' := a[1..];
      assert (a + b)[0] == a[0] && (a + b)[1..] == a' + b;
      var head, ab := PipeConfigAt(fs, a[0]), PipeConfigsAt(fs, a + b);
      if head.Success? {
        PipeConfigsAtConcat(fs, a', b);
        var tail := PipeConfigsAt(fs, a');
        if tail.Success? && PipeConfigsAt(fs, b).Success? {
          var cb := PipeConfigsAt(fs, b).value;
          assert PipeConfigsAt(fs, a).value == [head.value] + tail.value;
          assert ab.value == [head.value] + (tail.value + cb);
          ConcatAssoc([head.value], tail.value, cb);
        }
      }
    }
  }

  /** `pipe` is the unlinked pipe read from the pipe file of `location`. */
  ghost predicate Made(fs: Dir, pipe: Pipe, location: Path)
    reads pipe
  {
    && PipeConfigAt(fs, location).Success?
    && pipe.location == Render(location)
    && pipe.name == GetPipeName(Render(location))
    && pipe.Valid() && pipe.Unlinked()
    && pipe.Config() == PipeConfigAt(fs, location).value
  }

  /** `pipes[i]` is the pipe read from `locations[i]`, for every `i`. */
  ghost predicate Built(fs: Dir, pipes: seq<Pipe>, locations: seq<Path>)
    reads set p | p in pipes
  {
    |pipes| == |locations| && forall i :: 0 <= i < |pipes| ==> Made(fs, pipes[i], locations[i])
  }

  lemma BuiltConcat(fs: Dir, a: seq<Pipe>, pa: seq<Path>, b: seq<Pipe>, pb: seq<Path>)
    requires Built(fs, a, pa) && Built(fs, b, pb)
    ensures Built(fs, a + b, pa + pb)
  {
    forall i | 0 <= i < |a + b| ensures Made(fs, (a + b)[i], (pa + pb)[i]) {
      if i >= |a| {
        assert (a + b)[i] == b[i - |a|] && (pa + pb)[i] == pb[i - |a|];
      }
    }
  }

  /** `_read_pipe`: open the pipe file of `location` and build the pipe from its document. */
  method ReadPipe(fs: Dir, location: Path) returns (r: Result<Pipe, PipeError>)
    ensures r.Success? <==> PipeConfigAt(fs, location).Success?
    ensures r.Failure? ==> r.error == PipeConfigAt(fs, location).error
    ensures r.Success? ==> fresh(r.value) && Made(fs, r.value, location)
  {
    var path := Join(Render(location), PipeFile);
    if !HasPipe(fs, location) {
      return Failure(NoPipeFile(path));
    }
    var yml := LoadDocument(Lookup(fs, location).value.files[PipeFile]);
    r := NewPipe(Render(location), yml);
  }

  /** `_read_pipes_from`: for each sub-directory in listing order that holds a pipe file,
      read its pipe and then, recursively, the pipes below it. */
  method ReadPipesFrom(fs: Dir, location: Path) returns (r: Result<seq<Pipe>, PipeError>)
    requires WellFormed(fs) && Lookup(fs, location).Some?
    ensures r.Success? <==> PipeConfigsAt(fs, Nested(fs, location, PipeFile)).Success?
    ensures r.Failure? ==> r.error == PipeConfigsAt(fs, Nested(fs, location, PipeFile)).error
    ensures r.Success? ==> Built(fs, r.value, Nested(fs, location, PipeFile))
    ensures r.Success? ==> forall p :: p in r.value ==> fresh(p)
    decreases Lookup(fs, location).value, 1
  {
    var entries := Lookup(fs, location).value.subdirs;
    var pipes: seq<Pipe> := [];
    for i := 0 to |entries|
      invariant PipeConfigsAt(fs, Listed(fs, location, PipeFile, i)).Success?
      invariant Built(fs, pipes, Listed(fs, location, PipeFile, i))
      invariant forall p :: p in pipes ==> fresh(p)
    {
      var found := ReadEntry(fs, location, i);
      if found.Failure? {
        StopAt(fs, location, i);
        return Failure(found.error);
      }
      ReadOn(fs, location, i, pipes, found.value);
      pipes := pipes + found.value;
    }
    return Success(pipes);
  }

  /** The body of the listing loop for sub-directory `i`: when it holds a pipe file, read
      that pipe, then the pipes below it. */
  method ReadEntry(fs: Dir, location: Path, i: nat) returns (r: Result<seq<Pipe>, PipeError>)
    requires WellFormed(fs) && Lookup(fs, location).Some? && i < |Lookup(fs, location).value.subdirs|
    ensures r.Success? <==> PipeConfigsAt(fs, EntryUnits(fs, location, PipeFile, i)).Success?
    ensures r.Failure? ==> r.error == PipeConfigsAt(fs, EntryUnits(fs, location, PipeFile, i)).error
    ensures r.Success? ==> Built(fs, r.value, EntryUnits(fs, location, PipeFile, i))
    ensures r.Success? ==> forall p :: p in r.value ==> fresh(p)
    decreases Lookup(fs, location).value, 0
  {
    var current := location + [Lookup(fs, location).value.subdirs[i].name];
    LookupChild(fs, location, i);
    if !HasPipe(fs, current) {
      return Success([]);
    }
    ghost var nested := Nested(fs, current, PipeFile);
    PipeConfigsAtConcat(fs, [current], nested);
    var pipe := ReadPipe(fs, current);
    if pipe.Failure? {
      return Failure(pipe.error);
    }
    var below := ReadPipesFrom(fs, current);
    if below.Failure? {
      return Failure(below.error);
    }
    BuiltConcat(fs, [pipe.value], [current], below.value, nested);
    return Success([pipe.value] + below.value);
  }

  /** The loop of `_read_pipes_from` goes on after sub-directory `i` read cleanly. */
  lemma ReadOn(fs: Dir, location: Path, i: nat, pipes: seq<Pipe>, found: seq<Pipe>)
    requires WellFormed(fs) && Lookup(fs, location).Some? && i < |Lookup(fs, location).value.subdirs|
    requires PipeConfigsAt(fs, Listed(fs, location, PipeFile, i)).Success?
    requires Built(fs, pipes, Listed(fs, location, PipeFile, i))
    requires PipeConfigsAt(fs, EntryUnits(fs, location, PipeFile, i)).Success?
    requires Built(fs, found, EntryUnits(fs, location, PipeFile, i))
    ensures PipeConfigsAt(fs, Listed(fs, location, PipeFile, i + 1)).Success?
    ensures Built(fs, pipes + found, Listed(fs, location, PipeFile, i + 1))
  {
    var _ := ListedStep(fs, location, PipeFile, i);
    PipeConfigsAtConcat(fs, Listed(fs, location, PipeFile, i), EntryUnits(fs, location, PipeFile, i));
    BuiltConcat(fs, pipes, Listed(fs, location, PipeFile, i), found, EntryUnits(fs, location, PipeFile, i));
  }

  /** The loop of `_read_pipes_from` stops with the error of sub-directory `i`. */
  lemma StopAt(fs: Dir, location: Path, i: nat)
    requires WellFormed(fs) && Lookup(fs, location).Some? && i < |Lookup(fs, location).value.subdirs|
    requires PipeConfigsAt(fs, Listed(fs, location, PipeFile, i)).Success?
    requires PipeConfigsAt(fs, EntryUnits(fs, location, PipeFile, i)).Failure?
    ensures PipeConfigsAt(fs, Nested(fs, location, PipeFile)) == PipeConfigsAt(fs, EntryUnits(fs, location, PipeFile, i))
  {
    var rest := ListedStep(fs, location, PipeFile, i);
    FailsAt(fs, Listed(fs, location, PipeFile, i), EntryUnits(fs, location, PipeFile, i), rest);
  }

  /** A run that reads cleanly followed by one that fails fails as the second does. */
  lemma FailsAt(fs: Dir, before: seq<Path>, failing: seq<Path>, after: seq<Path>)
    requires PipeConfigsAt(fs, before).Success? && PipeConfigsAt(fs, failing).Failure?
    ensures PipeConfigsAt(fs, before + failing + after) == PipeConfigsAt(fs, failing)
  {
    PipeConfigsAtConcat(fs, before, failing);
    PipeConfigsAtConcat(fs, before + failing, after);
  }

  // ----- Linking -----

  /** Each pipe of `pipes` is indexed under its own name. */
  ghost predicate NamedByKey(pipes: Dict<string, Pipe>)
  {
    forall n :: n in pipes.items ==> pipes.items[n].name == n
  }

  /** Every pipe of `pipes` is valid and holds its original dependencies `orig` linked
      against the names in `done`. */
  ghost predicate LinkedSoFar(pipes: Dict<string, Pipe>, orig: map<string, Dict<string, Option<Pipe>>>, done: set<string>)
    reads pipes.items.Values
  {
    forall n :: n in pipes.items ==> LinkedAt(pipes, orig, n, done)
  }

  /** The dependency-building loop of `read_all_pipes`: for each name in order, fill the
      dependency on that pipe into every pipe that declares it. */
  method Link(pipes: Dict<string, Pipe>)
    requires pipes.Valid() && NamedByKey(pipes)
    requires forall n :: n in pipes.items ==> pipes.items[n].Valid()
    modifies pipes.items.Values
    ensures forall n :: n in pipes.items ==>
      && pipes.items[n].Valid()
      && pipes.items[n].dependencies == Resolve(old(pipes.items[n].dependencies), pipes.items, pipes.items.Keys)
  {
    ghost var orig := map n | n in pipes.items :: pipes.items[n].dependencies;
    ghost var done: set<string> := {};
    forall n | n in pipes.items ensures Resolve(orig[n], pipes.items, {}) == orig[n] {
      ResolveNothing(orig[n], pipes.items);
    }
    var names := pipes.keys;
    for i := 0 to |names|
      invariant done <= pipes.items.Keys
      invariant forall k :: 0 <= k < i ==> names[k] in done
      invariant LinkedSoFar(pipes, orig, done)
    {
      LinkName(pipes, names[i], orig, done);
      done := done + {names[i]};
    }
    assert done == pipes.items.Keys;
  }

  /** The inner loop: fill the dependency on the pipe called `name` into every pipe, in
      the dict's order, that declares it. */
  method LinkName(pipes: Dict<string, Pipe>, name: string,
                  ghost orig: map<string, Dict<string, Option<Pipe>>>, ghost done: set<string>)
    requires pipes.Valid() && NamedByKey(pipes) && name in pipes.items
    requires LinkedSoFar(pipes, orig, done)
    modifies pipes.items.Values
    ensures LinkedSoFar(pipes, orig, done + {name})
  {
    var values := pipes.Values();
    for j := 0 to |values|
      invariant forall k :: 0 <= k < |pipes.keys| ==> LinkedAt(pipes, orig, pipes.keys[k], if k < j then done + {name} else done)
    {
      var pipe := values[j];
      ghost var key := pipes.keys[j];
      label Before:
      if name in pipe.dependencies.items {
        ResolveDeclared(orig[key], pipes.items, done, name);
        pipe.FillDependencyWithPipe(pipes.items[name]);
      } else {
        ResolveUndeclared(orig[key], pipes.items, done, name);
      }
      forall k | 0 <= k < |pipes.keys|
        ensures LinkedAt(pipes, orig, pipes.keys[k], if k < j + 1 then done + {name} else done)
      {
        if k != j {
          assert pipes.keys[k] != key;
          assert pipes.items[pipes.keys[k]].name == pipes.keys[k];
          assert pipes.items[pipes.keys[k]] != pipe;
          assert unchanged@Before(pipes.items[pipes.keys[k]]);
        }
      }
    }
  }

  /** The pipe under `n` is valid and holds its original dependencies linked against `done`. */
  ghost predicate LinkedAt(pipes: Dict<string, Pipe>, orig: map<string, Dict<string, Option<Pipe>>>, n: string, done: set<string>)
    requires n in pipes.items
    reads pipes.items[n]
  {
    && n in orig
    && pipes.items[n].Valid()
    && pipes.items[n].dependencies == Resolve(orig[n], pipes.items, done)
  }

  // ----- Reading all pipes -----

  /** The name a pipe is indexed by. */
  function PipeName(pipe: Pipe): string {
    pipe.name
  }

  /** The name of the pipe read from `location`. */
  function DirName(location: Path): string {
    GetPipeName(Render(location))
  }

  /** The directories `read_all_pipes` reads, in order: the uppermost pipe directory, then
      those below it. */
  ghost function PipeDirs(fs: Dir, uppermost: Path): seq<Path> {
    if HasPipe(fs, uppermost) then [uppermost] + Nested(fs, uppermost, PipeFile) else [uppermost]
  }

  /** The pipe under `n` is the one read from `location`, with its dependencies linked
      against `pipes`. */
  ghost predicate Loaded(fs: Dir, pipes: Dict<string, Pipe>, n: string, location: Path)
    requires n in pipes.items
    reads pipes.items[n]
  {
    var pipe, config := pipes.items[n], PipeConfigAt(fs, location);
    && config.Success?
    && pipe.name == n
    && pipe.location == Render(location)
    && pipe.python == config.value.python
    && pipe.requirements == config.value.requirements
    && pipe.Valid()
    && pipe.dependencies == Linking(config.value.dependencies, pipes.items)
  }

  /** `pipes` indexes the pipes read from `dirs` by name, each name once in the order it
      first occurs, under each name the pipe of the last directory with that name. */
  ghost predicate ReadFrom(fs: Dir, dirs: seq<Path>, pipes: Dict<string, Pipe>)
    reads pipes.items.Values
  {
    && pipes.Valid()
    && pipes.keys == Dedup(KeysOf(dirs, DirName))
    && forall n :: n in pipes.items ==>
         n in KeysOf(dirs, DirName) && Loaded(fs, pipes, n, dirs[LastKeyed(dirs, DirName, n)])
  }

  /** Indexing the pipes read from `dirs` by name. */
  lemma IndexBuilt(fs: Dir, all: seq<Pipe>, dirs: seq<Path>)
    requires Built(fs, all, dirs)
    ensures var d := Index(all, PipeName);
      && d.Valid() && d.keys == Dedup(KeysOf(dirs, DirName)) && NamedByKey(d)
      && forall n :: n in d.items ==>
           n in KeysOf(dirs, DirName) && d.items[n] == all[LastKeyed(dirs, DirName, n)]
  {
    assert KeysOf(all, PipeName) == KeysOf(dirs, DirName) by {
      forall i | 0 <= i < |all| ensures KeysOf(all, PipeName)[i] == KeysOf(dirs, DirName)[i] {
        assert Made(fs, all[i], dirs[i]);
      }
    }
    var d := Index(all, PipeName);
    forall n | n in d.items
      ensures n in KeysOf(dirs, DirName) && d.items[n] == all[LastKeyed(dirs, DirName, n)] && d.items[n].name == n
    {
      assert n in d.keys;
      IndexAt(all, PipeName, n);
      LastKeyedSame(all, PipeName, dirs, DirName, n);
    }
  }

  /** `read_all_pipes`: walk up to the uppermost pipe directory above `start`, read its pipe
      and every pipe below it, index them by name (a later pipe replacing an earlier one of
      the same name) and link each pipe's dependencies to the pipes of those names. */
  method ReadAllPipes(fs: Dir, start: Path) returns (r: Result<Dict<string, Pipe>, PipeError>)
    requires WellFormed(fs) && WalkUpStops(fs, start, PipeFile)
    ensures r.Success? <==> PipeConfigsAt(fs, PipeDirs(fs, Top(fs, start, PipeFile))).Success?
    ensures r.Failure? ==> r.error == PipeConfigsAt(fs, PipeDirs(fs, Top(fs, start, PipeFile))).error
    ensures r.Success? ==> ReadFrom(fs, PipeDirs(fs, Top(fs, start, PipeFile)), r.value)
    ensures r.Success? ==> forall p :: p in r.value.items.Values ==> fresh(p)
  {
    var uppermost := Uppermost(fs, start, PipeFile);
    r := ReadPipesAt(fs, uppermost);
  }

  /** `read_all_pipes` once the uppermost directory is known. */
  method ReadPipesAt(fs: Dir, uppermost: Path) returns (r: Result<Dict<string, Pipe>, PipeError>)
    requires WellFormed(fs)
    ensures r.Success? <==> PipeConfigsAt(fs, PipeDirs(fs, uppermost)).Success?
    ensures r.Failure? ==> r.error == PipeConfigsAt(fs, PipeDirs(fs, uppermost)).error
    ensures r.Success? ==> ReadFrom(fs, PipeDirs(fs, uppermost), r.value)
    ensures r.Success? ==> forall p :: p in r.value.items.Values ==> fresh(p)
  {
    ghost var dirs := PipeDirs(fs, uppermost);
    var all := ReadPipesUnder(fs, uppermost);
    if all.Failure? {
      return Failure(all.error);
    }
    var main, nested := all.value[0], all.value[1..];
    assert all.value == [main] + nested;
    assert forall p :: p in [main] + nested ==> fresh(p);
    var pipes := IndexPipes(main, nested, fs, dirs);
    assert forall p :: p in pipes.items.Values ==> fresh(p);
    return Success(pipes);
  }

  /** The reading part of `read_all_pipes`: the pipe of the uppermost directory, then
      the pipes below it. */
  method ReadPipesUnder(fs: Dir, uppermost: Path) returns (r: Result<seq<Pipe>, PipeError>)
    requires WellFormed(fs)
    ensures r.Success? <==> PipeConfigsAt(fs, PipeDirs(fs, uppermost)).Success?
    ensures r.Failure? ==> r.error == PipeConfigsAt(fs, PipeDirs(fs, uppermost)).error
    ensures r.Success? ==> |r.value| > 0 && Built(fs, r.value, PipeDirs(fs, uppermost))
    ensures r.Success? ==> forall p :: p in r.value ==> fresh(p)
  {
    var main := ReadPipe(fs, uppermost);
    if main.Failure? {
      PipeConfigsAtConcat(fs, [uppermost], PipeDirs(fs, uppermost)[1..]);
      assert PipeDirs(fs, uppermost) == [uppermost] + PipeDirs(fs, uppermost)[1..];
      return Failure(main.error);
    }
    PipeConfigsAtConcat(fs, [uppermost], Nested(fs, uppermost, PipeFile));
    var nested := ReadPipesFrom(fs, uppermost);
    if nested.Failure? {
      return Failure(nested.error);
    }
    BuiltConcat(fs, [main.value], [uppermost], nested.value, Nested(fs, uppermost, PipeFile));
    return Success([main.value] + nested.value);
  }

  /** The rest of `read_all_pipes`: index the main pipe and the nested ones by name, the
      nested ones unpacked after the main one, and link them. */
  method IndexPipes(main: Pipe, nested: seq<Pipe>, ghost fs: Dir, ghost dirs: seq<Path>)
    returns (pipes: Dict<string, Pipe>)
    requires Built(fs, [main] + nested, dirs)
    modifies set p | p in [main] + nested
    ensures ReadFrom(fs, dirs, pipes)
    ensures forall p :: p in pipes.items.Values ==> p in [main] + nested
  {
    pipes := PutAll(Index([main], PipeName), Index(nested, PipeName));
    IndexConcat([main], nested, PipeName);
    Merged(fs, [main] + nested, dirs);
    ghost var unlinked := map n | n in pipes.items :: pipes.items[n].dependencies;
    forall n | n in pipes.items
      ensures var config := PipeConfigAt(fs, dirs[LastKeyed(dirs, DirName, n)]);
        config.Success? && Resolve(unlinked[n], pipes.items, pipes.items.Keys) == Linking(config.value.dependencies, pipes.items)
    {
      ResolveUnlinked(unlinked[n], pipes.items);
    }
    Link(pipes);
  }

  /** What indexing the pipes read from `dirs` gives before linking: each name maps to the
      unlinked pipe of the last directory with that name. */
  lemma Merged(fs: Dir, all: seq<Pipe>, dirs: seq<Path>)
    requires Built(fs, all, dirs)
    ensures var d := Index(all, PipeName);
      && d.Valid() && d.keys == Dedup(KeysOf(dirs, DirName)) && NamedByKey(d)
      && forall n :: n in d.items ==>
           && n in KeysOf(dirs, DirName) && d.items[n] in all
           && Made(fs, d.items[n], dirs[LastKeyed(dirs, DirName, n)])
    ensures forall p :: p in Index(all, PipeName).items.Values ==> p in all
  {
    IndexBuilt(fs, all, dirs);
    var d := Index(all, PipeName);
    forall n | n in d.items
      ensures d.items[n] in all && Made(fs, d.items[n], dirs[LastKeyed(dirs, DirName, n)])
    {
      var i := LastKeyed(dirs, DirName, n);
      assert Made(fs, all[i], dirs[i]);
    }
    forall p | p in d.items.Values ensures p in all {
      var n :| n in d.items && d.items[n] == p;
    }
  }

  // ----- The dependency graph of the pipes read -----

  /** Each pipe of `pipes` with the list of its dependency values, in declaration order:
      the graph `flat_dependencies` walks. */
  ghost function DependencyGraph(pipes: Dict<string, Pipe>): Graph<Pipe>
    requires forall p :: p in pipes.items.Values ==> p.dependencies.Valid()
    reads pipes.items.Values
  {
    map p | p in pipes.items.Values :: p.dependencies.Values()
  }

  /** After reading, the pipes' dependency dicts form a graph over the pipes read: a
      dependency is linked exactly when a pipe of that name was read, and then it is
      that pipe. */
  lemma ReadGraph(fs: Dir, dirs: seq<Path>, pipes: Dict<string, Pipe>)
    requires ReadFrom(fs, dirs, pipes)
    ensures forall p :: p in pipes.items.Values ==> p.Valid()
    ensures Mirrors(DependencyGraph(pipes))
    ensures forall n, m :: n in pipes.items && m in pipes.items[n].dependencies.items ==>
      (pipes.items[n].dependencies.items[m].Some? <==> m in pipes.items)
      && (m in pipes.items ==> pipes.items[n].dependencies.items[m] == Some(pipes.items[m]))
    ensures var g := DependencyGraph(pipes);
      forall p: Pipe, i: int :: p in g && 0 <= i < |g[p]| && g[p][i].Some? ==> g[p][i].value in g
  {
    forall p | p in pipes.items.Values ensures p.Valid() {
      var n :| n in pipes.items && pipes.items[n] == p;
      assert Loaded(fs, pipes, n, dirs[LastKeyed(dirs, DirName, n)]);
    }
    var g: Graph<Pipe> := DependencyGraph(pipes);
    forall n, m | n in pipes.items && m in pipes.items[n].dependencies.items
      ensures (pipes.items[n].dependencies.items[m].Some? <==> m in pipes.items)
           && (m in pipes.items ==> pipes.items[n].dependencies.items[m] == Some(pipes.items[m]))
    {
      assert Loaded(fs, pipes, n, dirs[LastKeyed(dirs, DirName, n)]);
    }
    forall p: Pipe, i: int | p in g && 0 <= i < |g[p]| && g[p][i].Some? ensures g[p][i].value in g {
      var n :| n in pipes.items && pipes.items[n] == p;
      var m := p.dependencies.keys[i];
      assert g[p][i] == p.dependencies.items[m];
      assert m in pipes.items;
    }
  }
}
