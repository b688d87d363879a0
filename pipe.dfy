/** `piper.config.pipe`: one pipe, built from the location of its directory and the
    document in its `pipe.yml`. */
module Pipes {
  import opened Wrappers
  import opened Dicts
  import opened Paths
  import opened Yaml
  import opened Flattening

  datatype PipeError =
    /** `KeyError`: the document has keys besides the three a pipe reads. */
    | UnknownConfiguration(leftover: Document)
    /** `TypeError`: the `dependencies` value cannot be iterated as a list of names. */
    | UnsupportedDependencies(declared: Value)
    /** `open` failing: the directory holds no pipe file. */
    | NoPipeFile(path: string)
    /** `AttributeError`: the walk met a dependency that linking left as `None`. */
    | UnresolvedDependency

  /** The keys a pipe document may hold. */
  const PipeKeys: set<string> := {"python", "dependencies", "requirements"}

  /** The names iterating the `dependencies` value yields: the items of a list of
      strings, or the characters of a single string. */
  function DeclaredNames(declared: Value): (r: Result<seq<string>, PipeError>)
    ensures r.Failure? ==> r.error == UnsupportedDependencies(declared)
    ensures r.Success? && declared.List? ==>
      |r.value| == |declared.items| && forall i :: 0 <= i < |r.value| ==> declared.items[i] == Str(r.value[i])
    ensures r.Success? && declared.Str? ==>
      |r.value| == |declared.s| && forall i :: 0 <= i < |r.value| ==> r.value[i] == [declared.s[i]]
  {
    match declared
    case List(items) =>
      (match StrItems(items)
       case Some(names) => Success(names)
       case None => Failure(UnsupportedDependencies(declared)))
    case Str(s) => Success(Chars(s))
    case _ => Failure(UnsupportedDependencies(declared))
  }

  /** The strings of a list holding only strings. */
  function StrItems(items: seq<Value>): (r: Option<seq<string>>)
    ensures r.Some? <==> forall i :: 0 <= i < |items| ==> items[i].Str?
    ensures r.Some? ==> |r.value| == |items| && forall i :: 0 <= i < |items| ==> items[i] == Str(r.value[i])
  {
    if items == [] then Some([])
    else if !items[0].Str? then None
    else match StrItems(items[1..])
      case None => None
      case Some(rest) => Some([items[0].s] + rest)
  }

  function Chars(s: string): (r: seq<string>)
    ensures |r| == |s| && forall i :: 0 <= i < |s| ==> r[i] == [s[i]]
  {
    if s == [] then [] else [[s[0]]] + Chars(s[1..])
  }

  /** What a pipe keeps of its document: `python`, the dependency names in order with
      each name once, and `requirements`. */
  datatype PipeConfig = PipeConfig(python: Value, dependencies: seq<string>, requirements: Value)

  /** The value under `key`, or `default` when the document lacks it (`dict.pop(key, default)`). */
  function Pop(yml: Document, key: string, default: Value): Value {
    if key in yml then yml[key] else default
  }

  /** The configuration `Pipe.__init__` keeps, or the error it raises: iterating the
      dependencies comes before the check for unknown keys. */
  function ParsePipeConfig(yml: Document): (r: Result<PipeConfig, PipeError>)
    ensures r.Success? <==> yml.Keys <= PipeKeys && DeclaredNames(Pop(yml, "dependencies", List([]))).Success?
    ensures r.Success? ==> Distinct(r.value.dependencies)
  {
    var names :- DeclaredNames(Pop(yml, "dependencies", List([])));
    if yml.Keys <= PipeKeys then
      Success(PipeConfig(Pop(yml, "python", Null), Dedup(names), Pop(yml, "requirements", Mapping(map[]))))
    else
      Failure(UnknownConfiguration(yml - PipeKeys))
  }

  /** A document that configures `config` and nothing else. */
  function PipeDocument(config: PipeConfig): (yml: Document)
    ensures yml.Keys == PipeKeys
  {
    map["python" := config.python,
        "dependencies" := List(StrValues(config.dependencies)),
        "requirements" := config.requirements]
  }

  function StrValues(names: seq<string>): (vs: seq<Value>)
    ensures |vs| == |names| && forall i :: 0 <= i < |names| ==> vs[i] == Str(names[i])
  {
    if names == [] then [] else [Str(names[0])] + StrValues(names[1..])
  }

  /** Reading the document of a configuration gives that configuration back. */
  lemma ParsePipeDocument(config: PipeConfig)
    requires Distinct(config.dependencies)
    ensures ParsePipeConfig(PipeDocument(config)) == Success(config)
  {
    var declared := List(StrValues(config.dependencies));
    var names := DeclaredNames(declared);
    assert names.value == config.dependencies;
    DedupOfDistinct(config.dependencies);
  }

  /** A document that reads at all reads the same as the document of what it configures:
      a parsed configuration is in normal form. */
  lemma ParseNormalizes(yml: Document)
    requires ParsePipeConfig(yml).Success?
    ensures ParsePipeConfig(PipeDocument(ParsePipeConfig(yml).value)) == ParsePipeConfig(yml)
  {
    ParsePipeDocument(ParsePipeConfig(yml).value);
  }

  /** The dependencies of a pipe are the names its document declares, each once, in the
      order of their first occurrence; absent, there are none. */
  lemma DependenciesDeclared(yml: Document)
    requires ParsePipeConfig(yml).Success?
    ensures "dependencies" !in yml ==> ParsePipeConfig(yml).value.dependencies == []
    ensures "dependencies" in yml && yml["dependencies"].List? ==>
      var deps, items := ParsePipeConfig(yml).value.dependencies, yml["dependencies"].items;
      && (forall n :: n in deps ==> Str(n) in items)
      && (forall i :: 0 <= i < |items| ==> items[i].Str? && items[i].s in deps)
      && (forall i, j :: 0 <= i < j < |deps| ==> FirstIndex(items, Str(deps[i])) < FirstIndex(items, Str(deps[j])))
  {
    if "dependencies" in yml && yml["dependencies"].List? {
      var items := yml["dependencies"].items;
      var names := DeclaredNames(yml["dependencies"]).value;
      var deps := Dedup(names);
      assert ParsePipeConfig(yml).value.dependencies == deps;
      forall n | n in deps ensures Str(n) in items {
        var i :| 0 <= i < |names| && names[i] == n;
        assert items[i] == Str(n);
      }
      forall i | 0 <= i < |items| ensures items[i].Str? && items[i].s in deps {
        assert items[i] == Str(names[i]);
        assert names[i] in names;
      }
      DedupKeepsFirstOrder(names);
      forall i, j | 0 <= i < j < |deps|
        ensures FirstIndex(items, Str(deps[i])) < FirstIndex(items, Str(deps[j]))
      {
        FirstIndexOfStrs(names, items, deps[i]);
        FirstIndexOfStrs(names, items, deps[j]);
      }
    }
  }

  /** Names and their `Str` values are first found at the same place. */
  lemma {:induction false} FirstIndexOfStrs(names: seq<string>, items: seq<Value>, n: string)
    requires |names| == |items| && forall i :: 0 <= i < |items| ==> items[i] == Str(names[i])
    requires n in names
    ensures Str(n) in items && FirstIndex(items, Str(n)) == FirstIndex(names, n)
  {
    var k := FirstIndex(names, n);
    assert items[k] == Str(n);
    assert names[FirstIndex(items, Str(n))] == n;
  }

  /** Any key besides the three is refused. */
  lemma UnknownKeyRefused(yml: Document, key: string)
    requires key in yml && key !in PipeKeys
    ensures ParsePipeConfig(yml).Failure?
    ensures DeclaredNames(Pop(yml, "dependencies", List([]))).Success? ==>
      ParsePipeConfig(yml).error.UnknownConfiguration? && key in ParsePipeConfig(yml).error.leftover
      && ParsePipeConfig(yml).error.leftover[key] == yml[key]
  {
  }

  /** A document whose keys are among the three, and whose dependencies can be iterated,
      reads: each of `python` and `requirements` is the document's value when present and
      its default (`None`, `{}`) when absent. A document with another key fails, after the
      dependencies are iterated, with exactly the entries outside the three as leftover. */
  lemma KnownKeysRead(yml: Document)
    requires DeclaredNames(Pop(yml, "dependencies", List([]))).Success?
    ensures yml.Keys <= PipeKeys ==>
      && ParsePipeConfig(yml).Success?
      && ParsePipeConfig(yml).value.python == (if "python" in yml then yml["python"] else Null)
      && ParsePipeConfig(yml).value.requirements == (if "requirements" in yml then yml["requirements"] else Mapping(map[]))
      && ("dependencies" !in yml ==> ParsePipeConfig(yml).value.dependencies == [])
    ensures !(yml.Keys <= PipeKeys) ==> ParsePipeConfig(yml) == Failure(UnknownConfiguration(yml - PipeKeys))
  {
    if "dependencies" !in yml {
      assert DeclaredNames(List([])) == Success([]);
      DedupOfDistinct<string>([]);
    }
  }

  /** An empty pipe file configures no interpreter, no dependencies and empty requirements. */
  lemma EmptyPipeFile()
    ensures ParsePipeConfig(LoadDocument(None)) == Success(PipeConfig(Null, [], Mapping(map[])))
  {
    assert DeclaredNames(List([])) == Success([]);
    DedupOfDistinct<string>([]);
  }

  // ----- The pipe object -----

  class Pipe {
    const location: string
    /** The base name of the pipe's directory. */
    const name: string
    const python: Value
    const requirements: Value
    const setupPyFolder: string
    const requirementsFile: string
    /** Each declared name, mapped to its pipe once linking has found one. */
    var dependencies: Dict<string, Option<Pipe>>

    ghost predicate Valid()
      reads this
    {
      dependencies.Valid()
    }

    /** What the pipe was configured with. */
    function Config(): PipeConfig
      reads this
    {
      PipeConfig(python, dependencies.keys, requirements)
    }

    /** No dependency is linked yet. */
    ghost predicate Unlinked()
      reads this
    {
      forall n :: n in dependencies.items ==> dependencies.items[n] == None
    }

    /** The attribute assignments of `Pipe.__init__` once the document has been read. */
    constructor (location: string, config: PipeConfig)
      requires Distinct(config.dependencies)
      ensures this.location == location && name == BaseName(location)
      ensures python == config.python && requirements == config.requirements
      ensures setupPyFolder == Join(location, "package")
      ensures requirementsFile == Join(setupPyFolder, "requirements.txt")
      ensures Valid() && Config() == config && Unlinked()
    {
      this.location := location;
      name := BaseName(location);
      python := config.python;
      requirements := config.requirements;
      setupPyFolder := Join(location, "package");
      requirementsFile := Join(Join(location, "package"), "requirements.txt");
      dependencies := FromKeys(config.dependencies, None);
      DedupOfDistinct(config.dependencies);
    }

    /** `fill_dependency_with_pipe`: map the pipe's name to it, adding the name at the end
        when it was not declared. */
    method FillDependencyWithPipe(pipe: Pipe)
      requires Valid()
      modifies this
      ensures Valid()
      ensures dependencies.items == old(dependencies.items)[pipe.name := Some(pipe)]
      ensures pipe.name in old(dependencies.items) ==> dependencies.keys == old(dependencies.keys)
      ensures pipe.name !in old(dependencies.items) ==> dependencies.keys == old(dependencies.keys) + [pipe.name]
    {
      DedupSnoc(dependencies.keys, pipe.name);
      DedupOfDistinct(dependencies.keys);
      dependencies := dependencies.Put(pipe.name, Some(pipe));
    }

    /** `flat_dependencies`: every pipe this one transitively depends on, deepest first.
        The graph `g` mirrors the pipes' dependency dicts and `rank` shows it has no cycle. */
    method FlatDependencies(ghost g: Graph<Pipe>, ghost rank: map<Pipe, nat>)
      returns (r: Result<seq<Pipe>, PipeError>)
      requires Ranked(g, rank) && this in g && Mirrors(g)
      ensures r.Success? <==> Linked(g, rank, this)
      ensures r.Failure? ==> r.error == UnresolvedDependency
      ensures r.Success? ==> r.value == Flatten(g, rank, this)
    {
      var levels :- Visit(this, Empty(), 0, g, rank);
      r := Success(SortByLevel(levels.keys, levels.items));
    }
  }

  /** `g` is the graph of the pipes' dependency dicts, values in key order. */
  ghost predicate Mirrors(g: Graph<Pipe>)
    reads g.Keys
  {
    forall p :: p in g ==> p.dependencies.Valid() && p.dependencies.Values() == g[p]
  }

  /** `Pipe.__init__`: pop the three known keys, then refuse any other. */
  method NewPipe(location: string, yml: Document) returns (r: Result<Pipe, PipeError>)
    ensures r.Success? <==> ParsePipeConfig(yml).Success?
    ensures r.Failure? ==> r.error == ParsePipeConfig(yml).error
    ensures r.Success? ==> && fresh(r.value) && r.value.Valid() && r.value.Unlinked()
                           && r.value.location == location && r.value.name == BaseName(location)
                           && r.value.Config() == ParsePipeConfig(yml).value
  {
    var config := yml;
    var python := Pop(config, "python", Null);
    config := config - {"python"};
    var declared := Pop(config, "dependencies", List([]));
    config := config - {"dependencies"};
    var names :- DeclaredNames(declared);
    var requirements := Pop(config, "requirements", Mapping(map[]));
    config := config - {"requirements"};
    PoppedAll(yml);
    if |config| > 0 {
      return Failure(UnknownConfiguration(config));
    }
    var pipe := new Pipe(location, PipeConfig(python, Dedup(names), requirements));
    return Success(pipe);
  }

  /** What is left after popping the three keys is the part of the document outside them. */
  lemma PoppedAll(yml: Document)
    ensures yml - {"python"} - {"dependencies"} - {"requirements"} == yml - PipeKeys
    ensures |yml - PipeKeys| > 0 <==> !(yml.Keys <= PipeKeys)
  {
    var rest := yml - PipeKeys;
    if !(yml.Keys <= PipeKeys) {
      var k :| k in yml && k !in PipeKeys;
      assert k in rest;
    } else {
      assert rest.Keys == {};
    }
  }

  /** One turn of the loop of `visit`: dependency `i` is recorded at `level`, then
      everything below it one level deeper. */
  lemma VisitStep(g: Graph<Pipe>, rank: map<Pipe, nat>, pipe: Pipe, level: nat, i: nat, visited: Dict<Pipe, nat>)
    requires Ranked(g, rank) && pipe in g && i < |g[pipe]| && LinkedUpTo(g, rank, pipe, i + 1)
    ensures g[pipe][i].Some? && g[pipe][i].value in g && Linked(g, rank, g[pipe][i].value)
    ensures var dep := g[pipe][i].value;
      Record(visited, WalkDeps(g, rank, pipe, level, i + 1))
        == Record(Step(Record(visited, WalkDeps(g, rank, pipe, level, i)), dep, level), Walk(g, rank, dep, level + 1))
  {
    var dep := g[pipe][i].value;
    var before := WalkDeps(g, rank, pipe, level, i);
    RecordConcat(visited, before + [(dep, level)], Walk(g, rank, dep, level + 1));
    RecordConcat(visited, before, [(dep, level)]);
    assert Record(Record(visited, before), [(dep, level)]) == Step(Record(visited, before), dep, level) by {
      assert [(dep, level)][..0] == [];
    }
  }

  /** The inner `visit` of `flat_dependencies`: for each dependency in order, raise its
      level to at least `level`, then visit it one level deeper. */
  method Visit(pipe: Pipe, visited: Dict<Pipe, nat>, level: nat, ghost g: Graph<Pipe>, ghost rank: map<Pipe, nat>)
    returns (r: Result<Dict<Pipe, nat>, PipeError>)
    requires Ranked(g, rank) && pipe in g && Mirrors(g)
    ensures r.Success? <==> Linked(g, rank, pipe)
    ensures r.Failure? ==> r.error == UnresolvedDependency
    ensures r.Success? ==> r.value == Record(visited, Walk(g, rank, pipe, level))
    decreases rank[pipe]
  {
    var deps := pipe.dependencies.Values();
    assert deps == g[pipe];
    var acc := visited;
    for i := 0 to |deps|
      invariant LinkedUpTo(g, rank, pipe, i)
      invariant acc == Record(visited, WalkDeps(g, rank, pipe, level, i))
    {
      LinkedStep(g, rank, pipe, i);
      if deps[i].None? {
        return Failure(UnresolvedDependency);
      }
      var dep := deps[i].value;
      assert dep in g && rank[dep] < rank[pipe];
      var below := Visit(dep, Step(acc, dep, level), level + 1, g, rank);
      if below.Failure? {
        return below;
      }
      VisitStep(g, rank, pipe, level, i, visited);
      acc := below.value;
    }
    LinkedStep(g, rank, pipe, |deps|);
    return Success(acc);
  }
}
