/** `travel.config.reader`: find the uppermost bag above a directory, read it and every
    bag nested below it (each bag keeping the group of bags below it), stamp every bag
    with the uppermost directory, link their dependencies, and pick out a target bag. */
module TravelReader {
  import opened Wrappers
  import opened Dicts
  import opened Paths
  import opened Yaml
  import opened FileTree
  import opened DependencyLinks

  /** The unit file of a bag. */
  const BagFile: string := "bag.yml"

  datatype BagError =
    /** `open` failing: the directory holds no bag file. */
    | NoBagFile(path: string)
    /** Whatever the bag constructor raises for the document of the bag at `location`. */
    | InvalidBag(location: string, message: string)
    /** `ValueError`: the target bag is not among the bags read. */
    | TargetNotFound(target: string, location: string)

  /** What a bag constructor makes of its document, as far as the reader uses it: the
      bag's name and the dependency names it declares. */
  datatype BagFields = BagFields(name: string, dependencies: seq<string>)

  /** The bag constructors, `RootBag` when the flag is set and `Bag` otherwise, applied to
      the location and the document: the fields they set, or the message they raise. */
  type BagBuilder = (string, Document, bool) -> Result<BagFields, string>

  /** `has_bag`: the directory directly holds a bag file. */
  predicate HasBag(fs: Dir, location: Path) {
    HasFile(fs, location, BagFile)
  }

  /** `has_bag` looks only at the directory itself: two trees whose directory at
      `location` lists the same files agree on it, whatever lies below that directory. */
  lemma HasBagIsLocal(fs: Dir, other: Dir, location: Path)
    requires Lookup(fs, location).Some? && Lookup(other, location).Some?
    requires Lookup(fs, location).value.files == Lookup(other, location).value.files
    ensures HasBag(fs, location) == HasBag(other, location)
  {
  }

  /** `get_bag_name`: the base name of a directory. */
  function GetBagName(location: string): (name: string)
    ensures '/' !in name
  {
    BaseName(location)
  }

  /** The name of a directory below the root is its last segment, with or without a
      trailing separator. */
  lemma GetBagNameOfDirectory(p: Path)
    requires p != [] && ValidPath(p)
    ensures GetBagName(Render(p)) == p[|p| - 1]
    ensures GetBagName(Render(p) + "/") == p[|p| - 1]
  {
    BaseNameOfRender(p);
    BaseNameIgnoresTrailingSeparator(Render(p));
  }

  /** What reading the bag file of `location` yields: the fields the constructor sets, or
      the error opening the file or building the bag raises. */
  function BagConfigAt(fs: Dir, build: BagBuilder, location: Path, isRoot: bool): (r: Result<BagFields, BagError>)
    ensures r.Success? ==> HasBag(fs, location)
  {
    if !HasBag(fs, location) then Failure(NoBagFile(Join(Render(location), BagFile)))
    else match build(Render(location), LoadDocument(Lookup(fs, location).value.files[BagFile]), isRoot)
      case Success(fields) => Success(fields)
      case Failure(message) => Failure(InvalidBag(Render(location), message))
  }

  /** Reading the bag files of `locations` in order, none of them as the root: all their
      fields, or the error of the first that fails. */
  function BagConfigsAt(fs: Dir, build: BagBuilder, locations: seq<Path>): (r: Result<seq<BagFields>, BagError>)
    ensures r.Success? ==> |r.value| == |locations|
  {
    if locations == [] then Success([])
    else
      var c :- BagConfigAt(fs, build, locations[0], false);
      var cs :- BagConfigsAt(fs, build, locations[1..]);
      Success([c] + cs)
  }

  /** A run reads cleanly iff every bag file of it does, each giving its own fields; when
      it fails, it fails with the error of one of them. */
  lemma {:induction false} BagConfigsAtEach(fs: Dir, build: BagBuilder, locations: seq<Path>)
    ensures BagConfigsAt(fs, build, locations).Success? <==>
      forall i :: 0 <= i < |locations| ==> BagConfigAt(fs, build, locations[i], false).Success?
    ensures BagConfigsAt(fs, build, locations).Success? ==>
      forall i :: 0 <= i < |locations| ==> BagConfigsAt(fs, build, locations).value[i] == BagConfigAt(fs, build, locations[i], false).value
    ensures BagConfigsAt(fs, build, locations).Failure? ==>
      exists i :: 0 <= i < |locations| && BagConfigAt(fs, build, locations[i], false).Failure?
        && BagConfigsAt(fs, build, locations).error == BagConfigAt(fs, build, locations[i], false).error
  {
    if locations != [] {
      var tail := locations[1..];
      BagConfigsAtEach(fs, build, tail);
      assert forall i :: 1 <= i < |locations| ==> locations[i] == tail[i - 1];
      var r := BagConfigsAt(fs, build, locations);
      if BagConfigAt(fs, build, locations[0], false).Success? && BagConfigsAt(fs, build, tail).Failure? {
        var j :| 0 <= j < |tail| && BagConfigAt(fs, build, tail[j], false).Failure?
          && BagConfigsAt(fs, build, tail).error == BagConfigAt(fs, build, tail[j], false).error;
        assert locations[j + 1] == tail[j];
      }
    }
  }

  /** Reading two runs of bag files one after the other. */
  lemma {:induction false} BagConfigsAtConcat(fs: Dir, build: BagBuilder, a: seq<Path>, b: seq<Path>)
    ensures BagConfigsAt(fs, build, a).Failure? ==> BagConfigsAt(fs, build, a + b) == BagConfigsAt(fs, build, a)
    ensures BagConfigsAt(fs, build, a).Success? && BagConfigsAt(fs, build, b).Failure? ==>
      BagConfigsAt(fs, build, a + b) == BagConfigsAt(fs, build, b)
    ensures BagConfigsAt(fs, build, a).Success? && BagConfigsAt(fs, build, b).Success? ==>
      BagConfigsAt(fs, build, a + b) == Success(BagConfigsAt(fs, build, a).value + BagConfigsAt(fs, build, b).value)
  {
    if a == [] {
      assert a + b == b;
      assert BagConfigsAt(fs, build, a) == Success([]);
      if BagConfigsAt(fs, build, b).Success? {
        assert [] + BagConfigsAt(fs, build, b).value == BagConfigsAt(fs, build, b).value;
      }
    } else {
      var a' := a[1..];
      assert (a + b)[0] == a[0] && (a + b)[1..] == a' + b;
      var head := BagConfigAt(fs, build, a[0], false);
      if head.Success? {
        BagConfigsAtConcat(fs, build, a', b);
        var tail := BagConfigsAt(fs, build, a');
        if tail.Success? && BagConfigsAt(fs, build, b).Success? {
          var cb := BagConfigsAt(fs, build, b).value;
          assert BagConfigsAt(fs, build, a).value == [head.value] + tail.value;
          ConcatAssoc([head.value], tail.value, cb);
        }
      }
    }
  }

  /** A run that reads cleanly followed by one that fails fails as the second does. */
  lemma FailsAt(fs: Dir, build: BagBuilder, before: seq<Path>, failing: seq<Path>, after: seq<Path>)
    requires BagConfigsAt(fs, build, before).Success? && BagConfigsAt(fs, build, failing).Failure?
    ensures BagConfigsAt(fs, build, before + failing + after) == BagConfigsAt(fs, build, failing)
  {
    BagConfigsAtConcat(fs, build, before, failing);
    BagConfigsAtConcat(fs, build, before + failing, after);
  }

  /** What `read_bags_from_recursive(location, is_root)` reads: the bag of `location` with
      the given flag, then every bag below it in pre-order as a plain bag; or the error of
      the first read that fails. */
  function TreeConfigsAt(fs: Dir, build: BagBuilder, location: Path, isRoot: bool): Result<seq<BagFields>, BagError> {
    var head := BagConfigAt(fs, build, location, isRoot);
    if head.Failure? then Failure(head.error)
    else
      var rest := BagConfigsAt(fs, build, PathsOf(Discover(fs, location, BagFile)));
      if rest.Failure? then Failure(rest.error) else Success([head.value] + rest.value)
  }

  /** Below the root, reading a tree is reading its directories in pre-order. */
  lemma TreeConfigsAsList(fs: Dir, build: BagBuilder, location: Path)
    requires HasBag(fs, location)
    ensures TreeConfigsAt(fs, build, location, false) == BagConfigsAt(fs, build, [location] + Nested(fs, location, BagFile))
  {
    var nested := Nested(fs, location, BagFile);
    BagConfigsAtConcat(fs, build, [location], nested);
    assert [location][1..] == [];
  }

  // ----- The bag object -----

  class Bag {
    const location: string
    const name: string
    /** Built by `RootBag` rather than `Bag`. */
    const isRoot: bool
    /** Each declared name, mapped to its bag once linking has found one. */
    var dependencies: Dict<string, Option<Bag>>
    /** The bags read below this one. */
    var group: seq<Bag>
    /** The uppermost directory of the tree the bag was read in, once stamped. */
    var rootContext: Option<string>

    ghost predicate Valid()
      reads this`dependencies
    {
      dependencies.Valid()
    }

    /** No dependency is linked yet. */
    ghost predicate Unlinked()
      reads this`dependencies
    {
      forall n :: n in dependencies.items ==> dependencies.items[n] == None
    }

    /** The bag a constructor makes of `fields`: every declared name once, unlinked; no
        group and no root context yet. */
    constructor (location: string, fields: BagFields, isRoot: bool)
      ensures this.location == location && name == fields.name && this.isRoot == isRoot
      ensures Valid() && Unlinked() && dependencies.keys == Dedup(fields.dependencies)
      ensures group == [] && rootContext == None
    {
      this.location := location;
      name := fields.name;
      this.isRoot := isRoot;
      dependencies := FromKeys(fields.dependencies, None);
      group := [];
      rootContext := None;
    }

    /** `fill_dependency_with_bag`: map the bag's name to it, adding the name at the end
        when it was not declared. */
    method FillDependencyWithBag(bag: Bag)
      requires Valid()
      modifies this`dependencies
      ensures Valid()
      ensures dependencies.items == old(dependencies.items)[bag.name := Some(bag)]
      ensures bag.name in old(dependencies.items) ==> dependencies.keys == old(dependencies.keys)
      ensures bag.name !in old(dependencies.items) ==> dependencies.keys == old(dependencies.keys) + [bag.name]
    {
      DedupSnoc(dependencies.keys, bag.name);
      DedupOfDistinct(dependencies.keys);
      dependencies := dependencies.Put(bag.name, Some(bag));
    }
  }

  /** `bag` is the bag the constructor made of `fields`, read at `location`: not yet
      grouped, stamped or linked. */
  ghost predicate Made(bag: Bag, location: Path, fields: BagFields, isRoot: bool)
    reads bag`dependencies, bag`rootContext
  {
    && bag.location == Render(location)
    && bag.name == fields.name
    && bag.isRoot == isRoot
    && bag.Valid() && bag.Unlinked()
    && bag.dependencies.keys == Dedup(fields.dependencies)
    && bag.rootContext == None
  }

  /** `bags[i]` is the plain bag made of `fields[i]` at `locations[i]`, bag after bag. */
  ghost predicate Built(bags: seq<Bag>, locations: seq<Path>, fields: seq<BagFields>)
    reads (set b | b in bags)`dependencies, (set b | b in bags)`rootContext
    decreases |bags|
  {
    && |bags| == |locations| == |fields|
    && (bags != [] ==> Made(bags[0], locations[0], fields[0], false) && Built(bags[1..], locations[1..], fields[1..]))
  }

  /** Built bag by bag is built at every index. */
  lemma {:induction false} BuiltEach(bags: seq<Bag>, locations: seq<Path>, fields: seq<BagFields>)
    ensures Built(bags, locations, fields) <==>
      && |bags| == |locations| == |fields|
      && forall i :: 0 <= i < |bags| ==> Made(bags[i], locations[i], fields[i], false)
    decreases |bags|
  {
    if bags != [] && |bags| == |locations| == |fields| {
      BuiltEach(bags[1..], locations[1..], fields[1..]);
      assert forall i :: 1 <= i < |bags| ==>
        bags[1..][i - 1] == bags[i] && locations[1..][i - 1] == locations[i] && fields[1..][i - 1] == fields[i];
    }
  }

  lemma BuiltConcat(a: seq<Bag>, pa: seq<Path>, fa: seq<BagFields>, b: seq<Bag>, pb: seq<Path>, fb: seq<BagFields>)
    requires Built(a, pa, fa) && Built(b, pb, fb)
    ensures Built(a + b, pa + pb, fa + fb)
  {
    BuiltEach(a, pa, fa);
    BuiltEach(b, pb, fb);
    BuiltEach(a + b, pa + pb, fa + fb);
    forall i | 0 <= i < |a + b| ensures Made((a + b)[i], (pa + pb)[i], (fa + fb)[i], false) {
      if i >= |a| {
        assert (a + b)[i] == b[i - |a|] && (pa + pb)[i] == pb[i - |a|] && (fa + fb)[i] == fb[i - |a|];
      } else {
        assert (a + b)[i] == a[i] && (pa + pb)[i] == pa[i] && (fa + fb)[i] == fa[i];
      }
    }
  }

  /** For each directory found by a walk, how many directories its own subtree holds,
      itself included. */
  function Spans(xs: seq<Found>): (spans: seq<nat>)
    ensures |spans| == |xs|
  {
    if xs == [] then [] else Spans(xs[..|xs| - 1]) + [|Subtree(xs[|xs| - 1].dir, xs[|xs| - 1].path, BagFile)|]
  }

  lemma {:induction false} SpansAt(xs: seq<Found>, i: nat)
    requires i < |xs|
    ensures Spans(xs)[i] == |Subtree(xs[i].dir, xs[i].path, BagFile)|
  {
    if i < |xs| - 1 {
      SpansAt(xs[..|xs| - 1], i);
    }
  }

  lemma {:induction false} SpansConcat(a: seq<Found>, b: seq<Found>)
    ensures Spans(a + b) == Spans(a) + Spans(b)
    decreases |b|
  {
    if b == [] {
      assert a + b == a;
    } else {
      assert (a + b)[..|a + b| - 1] == a + b[..|b| - 1];
      SpansConcat(a, b[..|b| - 1]);
    }
  }

  /** The group of each bag of `bags` is the run of bags right after it that were read
      below it, `spans[i]` counting the bag itself and that run. */
  ghost predicate Grouped(bags: seq<Bag>, spans: seq<nat>)
    reads (set b | b in bags)`group
    decreases |bags|
  {
    && |bags| == |spans|
    && (bags != [] ==> 0 < spans[0] <= |bags| && bags[0].group == bags[1..spans[0]] && Grouped(bags[1..], spans[1..]))
  }

  /** Grouped bag by bag is grouped at every index. */
  lemma {:induction false} GroupedEach(bags: seq<Bag>, spans: seq<nat>)
    ensures Grouped(bags, spans) <==>
      && |bags| == |spans|
      && forall i :: 0 <= i < |spans| ==> 0 < spans[i] && i + spans[i] <= |bags| && bags[i].group == bags[i + 1 .. i + spans[i]]
    decreases |bags|
  {
    if bags != [] && |bags| == |spans| {
      GroupedEach(bags[1..], spans[1..]);
      forall i | 1 <= i < |spans|
        ensures spans[1..][i - 1] == spans[i] && bags[1..][i - 1] == bags[i]
        ensures 0 < spans[i] && i + spans[i] <= |bags| ==> bags[1..][i .. i - 1 + spans[i]] == bags[i + 1 .. i + spans[i]]
      {
        if 0 < spans[i] && i + spans[i] <= |bags| {
          SliceOfTail(bags, i + 1, i + spans[i]);
        }
      }
    }
  }

  lemma SliceOfTail<T>(s: seq<T>, lo: nat, hi: nat)
    requires 1 <= lo <= hi <= |s|
    ensures s[1..][lo - 1 .. hi - 1] == s[lo..hi]
  {
    var t := s[1..][lo - 1 .. hi - 1];
    assert forall k :: 0 <= k < |t| ==> t[k] == s[lo + k];
  }

  lemma {:induction false} GroupedConcat(a: seq<Bag>, sa: seq<nat>, b: seq<Bag>, sb: seq<nat>)
    requires Grouped(a, sa) && Grouped(b, sb)
    ensures Grouped(a + b, sa + sb)
    decreases |a|
  {
    if a == [] {
      assert a + b == b && sa + sb == sb;
    } else {
      GroupedConcat(a[1..], sa[1..], b, sb);
      assert (a + b)[1..] == a[1..] + b && (sa + sb)[1..] == sa[1..] + sb;
      assert (a + b)[1..sa[0]] == a[1..sa[0]];
    }
  }

  /** The spans of a subtree: the whole subtree, then the spans of what lies below. */
  lemma SpansOfSubtree(d: Dir, location: Path)
    ensures
      var below := Below(d, location, BagFile, |d.subdirs|);
      Spans(Subtree(d, location, BagFile)) == [1 + |below|] + Spans(below)
  {
    var below := Below(d, location, BagFile, |d.subdirs|);
    SpansConcat([Found(location, d)], below);
    assert [Found(location, d)][..0] == [];
  }

  /** A bag whose group is the grouped run after it heads a grouped run. */
  lemma GroupedCons(bag: Bag, group: seq<Bag>, spans: seq<nat>)
    requires Grouped(group, spans) && bag.group == group
    ensures Grouped([bag] + group, [1 + |group|] + spans)
  {
    assert ([bag] + group)[1..] == group && ([1 + |group|] + spans)[1..] == spans;
    assert ([bag] + group)[1..1 + |group|] == group;
  }

  // ----- Reading the tree -----

  /** `read_bag`: open the bag file of `location` and build a root bag or a plain bag
      from its document. */
  method ReadBag(fs: Dir, build: BagBuilder, location: Path, isRoot: bool) returns (r: Result<Bag, BagError>)
    ensures r.Success? <==> BagConfigAt(fs, build, location, isRoot).Success?
    ensures r.Failure? ==> r.error == BagConfigAt(fs, build, location, isRoot).error
    ensures r.Success? ==> fresh(r.value) && Made(r.value, location, BagConfigAt(fs, build, location, isRoot).value, isRoot)
  {
    var path := Join(Render(location), BagFile);
    if !HasBag(fs, location) {
      return Failure(NoBagFile(path));
    }
    var yml := LoadDocument(Lookup(fs, location).value.files[BagFile]);
    var fields := build(Render(location), yml, isRoot);
    if fields.Failure? {
      return Failure(InvalidBag(Render(location), fields.error));
    }
    var bag := new Bag(Render(location), fields.value, isRoot);
    return Success(bag);
  }

  /** The directory a walk down from `location` would be at, or the whole tree when
      `location` names none (the read then stops before walking down). */
  function At(fs: Dir, location: Path): Dir {
    Lookup(fs, location).GetOr(fs)
  }

  /** What `read_bags_from_recursive(location, is_root)` returns: the bag read from
      `location`, then the plain bags read below it in pre-order, each bag's group being
      the bags read below it. */
  ghost predicate TreeRead(fs: Dir, build: BagBuilder, location: Path, isRoot: bool, bags: seq<Bag>)
    reads (set b | b in bags)`dependencies, (set b | b in bags)`rootContext, (set b | b in bags)`group
  {
    var configs := TreeConfigsAt(fs, build, location, isRoot);
    && HasBag(fs, location) && configs.Success? && 0 < |bags|
    && Made(bags[0], location, configs.value[0], isRoot)
    && Built(bags[1..], Nested(fs, location, BagFile), configs.value[1..])
    && Grouped(bags, Spans(Subtree(Lookup(fs, location).value, location, BagFile)))
  }

  /** `read_bags_from_recursive`: read the bag of `location`, then, for each
      sub-directory in listing order that holds a bag file, the bags below it as plain
      bags; the bag's group is everything read below it, and the list returned is the
      bag followed by its group. */
  method ReadBagsFromRecursive(fs: Dir, build: BagBuilder, location: Path, isRoot: bool)
    returns (r: Result<seq<Bag>, BagError>)
    requires WellFormed(fs)
    ensures r.Success? <==> TreeConfigsAt(fs, build, location, isRoot).Success?
    ensures r.Failure? ==> r.error == TreeConfigsAt(fs, build, location, isRoot).error
    ensures r.Failure? || TreeRead(fs, build, location, isRoot, r.value)
    ensures r.Success? ==> forall b :: b in r.value ==> fresh(b)
    decreases At(fs, location), 2
  {
    var read := ReadBag(fs, build, location, isRoot);
    if read.Failure? {
      return Failure(read.error);
    }
    var bag := read.value;
    var group := ReadGroup(fs, build, location);
    if group.Failure? {
      return Failure(group.error);
    }
    bag.group := group.value;
    TreeReadCons(fs, build, location, isRoot, read, group);
    return Success([bag] + group.value);
  }

  /** The bag of `location` followed by the group read below it, which it keeps, is the
      tree read from `location`. */
  lemma TreeReadCons(fs: Dir, build: BagBuilder, location: Path, isRoot: bool,
                      read: Result<Bag, BagError>, groupRead: Result<seq<Bag>, BagError>)
    requires WellFormed(fs) && read.Success? && groupRead.Success?
    requires read.Failure? || (BagConfigAt(fs, build, location, isRoot).Success?
      && Made(read.value, location, BagConfigAt(fs, build, location, isRoot).value, isRoot))
    requires groupRead.Failure? || (Lookup(fs, location).Some?
      && GroupSoFar(fs, build, location, |Lookup(fs, location).value.subdirs|, groupRead.value))
    requires read.value.group == groupRead.value
    ensures TreeRead(fs, build, location, isRoot, [read.value] + groupRead.value)
  {
    var bag, group := read.value, groupRead.value;
    var d := Lookup(fs, location).value;
    SpansOfSubtree(d, location);
    GroupedCons(bag, group, Spans(Below(d, location, BagFile, |d.subdirs|)));
    assert ([bag] + group)[1..] == group;
  }

  /** The listing loop of `read_bags_from_recursive`: the bags of every sub-directory that
      holds a bag file, one subtree after the other. */
  method ReadGroup(fs: Dir, build: BagBuilder, location: Path) returns (r: Result<seq<Bag>, BagError>)
    requires WellFormed(fs) && Lookup(fs, location).Some?
    ensures r.Success? <==> BagConfigsAt(fs, build, Nested(fs, location, BagFile)).Success?
    ensures r.Failure? ==> r.error == BagConfigsAt(fs, build, Nested(fs, location, BagFile)).error
    ensures r.Failure? || GroupSoFar(fs, build, location, |Lookup(fs, location).value.subdirs|, r.value)
    ensures r.Success? ==> forall b :: b in r.value ==> fresh(b)
    decreases At(fs, location), 1
  {
    var entries := Lookup(fs, location).value.subdirs;
    var group: seq<Bag> := [];
    for i := 0 to |entries|
      invariant GroupSoFar(fs, build, location, i, group)
      invariant forall b :: b in group ==> fresh(b)
    {
      var next := ReadNext(fs, build, location, i, group);
      if next.Failure? {
        return next;
      }
      group := next.value;
    }
    return Success(group);
  }

  /** The listing loop has read the first `i` sub-directories cleanly into `group`. */
  ghost predicate GroupSoFar(fs: Dir, build: BagBuilder, location: Path, i: nat, group: seq<Bag>)
    reads (set b | b in group)`dependencies, (set b | b in group)`rootContext, (set b | b in group)`group
  {
    && Lookup(fs, location).Some? && i <= |Lookup(fs, location).value.subdirs|
    && var listed := Listed(fs, location, BagFile, i);
    && BagConfigsAt(fs, build, listed).Success?
    && Built(group, listed, BagConfigsAt(fs, build, listed).value)
    && Grouped(group, Spans(Below(Lookup(fs, location).value, location, BagFile, i)))
  }

  /** One pass of the listing loop, for sub-directory `i`: when it holds a bag file, read
      the bags of its subtree and add them to the group. */
  method ReadNext(fs: Dir, build: BagBuilder, location: Path, i: nat, group: seq<Bag>) returns (r: Result<seq<Bag>, BagError>)
    requires WellFormed(fs) && GroupSoFar(fs, build, location, i, group) && i < |Lookup(fs, location).value.subdirs|
    ensures r.Failure? ==> BagConfigsAt(fs, build, Nested(fs, location, BagFile)) == Failure(r.error)
    ensures r.Failure? || GroupSoFar(fs, build, location, i + 1, r.value)
    ensures r.Success? ==> forall b :: b in r.value ==> b in group || fresh(b)
    decreases At(fs, location), 0
  {
    var current := location + [Lookup(fs, location).value.subdirs[i].name];
    LookupChild(fs, location, i);
    if !HasBag(fs, current) {
      GroupOnEmpty(fs, build, location, i, group);
      return Success(group);
    }
    var children := ReadBagsFromRecursive(fs, build, current, false);
    if children.Failure? {
      TreeConfigsAsList(fs, build, current);
      StopAt(fs, build, location, i);
      return Failure(children.error);
    }
    GroupOnTree(fs, build, location, i, group, children);
    return Success(group + children.value);
  }

  /** What sub-directory `i` of `d` contributes to the walk: its subtree when it holds a
      bag file, nothing otherwise. */
  function EntryFound(d: Dir, location: Path, i: nat): seq<Found>
    requires i < |d.subdirs|
  {
    var e := d.subdirs[i];
    if BagFile in e.dir.files then Subtree(e.dir, location + [e.name], BagFile) else []
  }

  /** The listing loop goes past a sub-directory without a bag file. */
  lemma GroupOnEmpty(fs: Dir, build: BagBuilder, location: Path, i: nat, group: seq<Bag>)
    requires WellFormed(fs) && Lookup(fs, location).Some? && i < |Lookup(fs, location).value.subdirs|
    requires !HasBag(fs, location + [Lookup(fs, location).value.subdirs[i].name])
    requires HasBag(fs, location + [Lookup(fs, location).value.subdirs[i].name]) || GroupSoFar(fs, build, location, i, group)
    ensures GroupSoFar(fs, build, location, i + 1, group)
  {
    var d := Lookup(fs, location).value;
    LookupChild(fs, location, i);
    var _ := ListedStep(fs, location, BagFile, i);
    assert Listed(fs, location, BagFile, i + 1) == Listed(fs, location, BagFile, i);
    assert Below(d, location, BagFile, i + 1) == Below(d, location, BagFile, i);
  }

  /** The listing loop goes on with the tree read cleanly from sub-directory `i`. */
  lemma GroupOnTree(fs: Dir, build: BagBuilder, location: Path, i: nat, group: seq<Bag>, children: Result<seq<Bag>, BagError>)
    requires WellFormed(fs) && children.Success?
    requires children.Failure? || GroupSoFar(fs, build, location, i, group)
    requires i < |Lookup(fs, location).value.subdirs|
    requires children.Failure? || TreeRead(fs, build, location + [Lookup(fs, location).value.subdirs[i].name], false, children.value)
    ensures GroupSoFar(fs, build, location, i + 1, group + children.value)
  {
    var found := children.value;
    var d := Lookup(fs, location).value;
    var current := location + [d.subdirs[i].name];
    LookupChild(fs, location, i);
    var listed, units := Listed(fs, location, BagFile, i), EntryUnits(fs, location, BagFile, i);
    assert units == [current] + Nested(fs, current, BagFile);
    TreeConfigsAsList(fs, build, current);
    var configs := TreeConfigsAt(fs, build, current, false).value;
    assert found == [found[0]] + found[1..] && configs == [configs[0]] + configs[1..];
    BuiltConcat([found[0]], [current], [configs[0]], found[1..], Nested(fs, current, BagFile), configs[1..]);
    var _ := ListedStep(fs, location, BagFile, i);
    BagConfigsAtConcat(fs, build, listed, units);
    BuiltConcat(group, listed, BagConfigsAt(fs, build, listed).value, found, units, configs);
    assert Below(d, location, BagFile, i + 1) == Below(d, location, BagFile, i) + EntryFound(d, location, i);
    SpansConcat(Below(d, location, BagFile, i), EntryFound(d, location, i));
    GroupedConcat(group, Spans(Below(d, location, BagFile, i)), found, Spans(EntryFound(d, location, i)));
  }

  /** The loop of `read_bags_from_recursive` stops with the error of sub-directory `i`. */
  lemma StopAt(fs: Dir, build: BagBuilder, location: Path, i: nat)
    requires WellFormed(fs) && Lookup(fs, location).Some? && i < |Lookup(fs, location).value.subdirs|
    requires BagConfigsAt(fs, build, Listed(fs, location, BagFile, i)).Success?
    requires BagConfigsAt(fs, build, EntryUnits(fs, location, BagFile, i)).Failure?
    ensures BagConfigsAt(fs, build, Nested(fs, location, BagFile)) == BagConfigsAt(fs, build, EntryUnits(fs, location, BagFile, i))
  {
    var rest := ListedStep(fs, location, BagFile, i);
    FailsAt(fs, build, Listed(fs, location, BagFile, i), EntryUnits(fs, location, BagFile, i), rest);
  }

  /** `read_bags_from`: read the tree below the uppermost directory, its bag as the root. */
  method ReadBagsFrom(fs: Dir, build: BagBuilder, uppermost: Path) returns (r: Result<seq<Bag>, BagError>)
    requires WellFormed(fs)
    ensures r.Success? <==> TreeConfigsAt(fs, build, uppermost, true).Success?
    ensures r.Failure? ==> r.error == TreeConfigsAt(fs, build, uppermost, true).error
    ensures r.Failure? || TreeRead(fs, build, uppermost, true, r.value)
    ensures r.Success? ==> forall b :: b in r.value ==> fresh(b)
  {
    r := ReadBagsFromRecursive(fs, build, uppermost, true);
  }

  // ----- Where each bag was read -----

  /** The directories the bags of `location` were read from: itself, then the bag
      directories below it in pre-order. */
  ghost function TreeDirs(fs: Dir, location: Path): seq<Path>
    requires Lookup(fs, location).Some?
  {
    [location] + Nested(fs, location, BagFile)
  }

  /** `group` holds one bag per bag directory below `location`, in pre-order, each read
      from that directory. */
  ghost predicate GroupOf(fs: Dir, location: Path, group: seq<Bag>)
    requires Lookup(fs, location).Some?
  {
    var below := Nested(fs, location, BagFile);
    |group| == |below| && forall k :: 0 <= k < |group| ==> group[k].location == Render(below[k])
  }

  /** The walk below `location`, itself included: pre-ordered, visiting the directories
      of `TreeDirs`, each found where it lies. */
  lemma SubtreeWalk(fs: Dir, location: Path)
    requires WellFormed(fs) && Lookup(fs, location).Some?
    ensures
      var all := Subtree(Lookup(fs, location).value, location, BagFile);
      && PreOrdered(all, BagFile)
      && PathsOf(all) == TreeDirs(fs, location)
      && forall i :: 0 <= i < |all| ==> Lookup(fs, all[i].path) == Some(all[i].dir)
  {
    var d := Lookup(fs, location).value;
    var all := Subtree(d, location, BagFile);
    PathsOfConcat([Found(location, d)], Discover(fs, location, BagFile));
    BelowPreOrder(d, location, BagFile, |d.subdirs|);
    PreOrderedCons(Found(location, d), Below(d, location, BagFile, |d.subdirs|), BagFile);
    DiscoverSound(fs, location, BagFile);
    forall i | 0 < i < |all| ensures Lookup(fs, all[i].path) == Some(all[i].dir) {
      assert all[i] == Discover(fs, location, BagFile)[i - 1];
    }
  }

  /** Position `i` of a tree read from `location` holds the bag made from the fields read
      at the `i`-th directory, the root bag only at the top. */
  lemma TreeReadMade(fs: Dir, build: BagBuilder, location: Path, isRoot: bool, bags: seq<Bag>, i: nat)
    requires WellFormed(fs) && TreeRead(fs, build, location, isRoot, bags) && i < |bags|
    ensures
      var dirs, fields := TreeDirs(fs, location), TreeConfigsAt(fs, build, location, isRoot).value;
      && |bags| == |dirs| == |fields|
      && Made(bags[i], dirs[i], fields[i], isRoot && i == 0)
  {
    var dirs, fields := TreeDirs(fs, location), TreeConfigsAt(fs, build, location, isRoot).value;
    BuiltEach(bags[1..], Nested(fs, location, BagFile), fields[1..]);
    if i > 0 {
      assert bags[i] == bags[1..][i - 1] && fields[i] == fields[1..][i - 1];
      assert dirs[i] == Nested(fs, location, BagFile)[i - 1];
    }
  }

  /** The group of the bag at position `i` of a tree read is the bags read below its
      directory. */
  lemma TreeReadGroup(fs: Dir, build: BagBuilder, location: Path, isRoot: bool, bags: seq<Bag>, i: nat)
    requires WellFormed(fs) && TreeRead(fs, build, location, isRoot, bags) && i < |bags|
    ensures |bags| == |TreeDirs(fs, location)|
    ensures Lookup(fs, TreeDirs(fs, location)[i]).Some?
    ensures GroupOf(fs, TreeDirs(fs, location)[i], bags[i].group)
  {
    var all := Subtree(Lookup(fs, location).value, location, BagFile);
    SubtreeWalk(fs, location);
    TreeReadMade(fs, build, location, isRoot, bags, 0);
    forall j | 0 <= j < |bags| ensures bags[j].location == Render(all[j].path) {
      TreeReadMade(fs, build, location, isRoot, bags, j);
    }
    WalkGroup(fs, bags, all, i);
  }

  /** In a pre-ordered walk grouped by its spans, the group at position `i` is the bags
      read below the `i`-th directory. */
  lemma WalkGroup(fs: Dir, bags: seq<Bag>, all: seq<Found>, i: nat)
    requires PreOrdered(all, BagFile) && Grouped(bags, Spans(all)) && i < |all|
    requires Lookup(fs, all[i].path) == Some(all[i].dir)
    requires forall j :: 0 <= j < |bags| ==> bags[j].location == Render(all[j].path)
    ensures GroupOf(fs, all[i].path, bags[i].group)
  {
    DiscoverPreOrderAt(fs, all, BagFile, i);
    GroupedEach(bags, Spans(all));
    SpansAt(all, i);
    var below := Discover(fs, all[i].path, BagFile);
    var group := bags[i].group;
    assert group == bags[i + 1 .. i + 1 + |below|];
    forall k | 0 <= k < |group| ensures group[k].location == Render(PathsOf(below)[k]) {
      assert group[k] == bags[i + 1 + k];
      assert below[k] == all[i + 1 + k];
    }
  }

  /** A tree read from `location` starts with the bag of `location`, the root bag exactly
      when the read is the top one, followed by one bag per bag directory below it in
      pre-order, none of them a root bag; the first bag's group is all the others. */
  lemma TreeReadTop(fs: Dir, build: BagBuilder, location: Path, isRoot: bool, bags: seq<Bag>)
    requires WellFormed(fs) && TreeRead(fs, build, location, isRoot, bags)
    ensures |bags| == |TreeDirs(fs, location)|
    ensures forall i :: 0 <= i < |bags| ==> bags[i].location == Render(TreeDirs(fs, location)[i])
    ensures bags[0].isRoot == isRoot && forall i :: 0 < i < |bags| ==> !bags[i].isRoot
    ensures bags[0].group == bags[1..]
  {
    forall i | 0 <= i < |bags|
      ensures bags[i].location == Render(TreeDirs(fs, location)[i]) && bags[i].isRoot == (isRoot && i == 0)
    {
      TreeReadMade(fs, build, location, isRoot, bags, i);
    }
    var all := Subtree(Lookup(fs, location).value, location, BagFile);
    GroupedEach(bags, Spans(all));
    SpansAt(all, 0);
  }

  // ----- Indexing, stamping and linking -----

  /** The name a bag is indexed by. */
  function BagName(bag: Bag): string {
    bag.name
  }

  /** The name a bag built from `fields` carries. */
  function FieldsName(fields: BagFields): string {
    fields.name
  }

  /** Each bag of `bags` is indexed under its own name. */
  ghost predicate NamedByKey(bags: Dict<string, Bag>) {
    forall n :: n in bags.items ==> bags.items[n].name == n
  }

  /** What `read_all_bags` returns for the tree below `uppermost`: the bags indexed by
      name, each name once in the order it is first read, under each name the bag read
      last with that name. That bag was read from its directory (as the root bag only at
      the top), holds the uppermost directory as its root context, has its declared
      dependencies linked against the bags of the dict, and keeps as its group the bags
      read below its directory. */
  ghost predicate BagsRead(fs: Dir, build: BagBuilder, uppermost: Path, bags: Dict<string, Bag>)
    reads bags.items.Values
  {
    var configs := TreeConfigsAt(fs, build, uppermost, true);
    && configs.Success? && HasBag(fs, uppermost)
    && bags.Valid()
    && bags.keys == Dedup(KeysOf(configs.value, FieldsName))
    && forall n :: n in bags.items ==> n in KeysOf(configs.value, FieldsName) && StoredAt(fs, build, uppermost, bags, n)
  }

  /** The bag under `n` in the result of `read_all_bags`, as `BagsRead` describes it. */
  ghost predicate StoredAt(fs: Dir, build: BagBuilder, uppermost: Path, bags: Dict<string, Bag>, n: string)
    requires HasBag(fs, uppermost) && TreeConfigsAt(fs, build, uppermost, true).Success?
    requires n in bags.items && n in KeysOf(TreeConfigsAt(fs, build, uppermost, true).value, FieldsName)
    reads bags.items[n]
  {
    var fields := TreeConfigsAt(fs, build, uppermost, true).value;
    var i := LastKeyed(fields, FieldsName, n);
    var bag, dirs := bags.items[n], TreeDirs(fs, uppermost);
    && |dirs| == |fields|
    && bag.name == n
    && bag.location == Render(dirs[i])
    && bag.isRoot == (i == 0)
    && bag.rootContext == Some(Render(uppermost))
    && bag.Valid()
    && bag.dependencies == Linking(Dedup(fields[i].dependencies), bags.items)
    && Lookup(fs, dirs[i]).Some?
    && GroupOf(fs, dirs[i], bag.group)
  }

  /** `bag`, indexed under `n`, is the one read last with that name: read at its
      directory, the root bag only at the top; `group` is the bags below that directory. */
  ghost predicate PlacedAt(fs: Dir, build: BagBuilder, uppermost: Path, n: string, bag: Bag, group: seq<Bag>)
    requires HasBag(fs, uppermost) && TreeConfigsAt(fs, build, uppermost, true).Success?
    requires n in KeysOf(TreeConfigsAt(fs, build, uppermost, true).value, FieldsName)
  {
    var fields := TreeConfigsAt(fs, build, uppermost, true).value;
    var i := LastKeyed(fields, FieldsName, n);
    var dirs := TreeDirs(fs, uppermost);
    && |dirs| == |fields|
    && bag.name == n
    && bag.location == Render(dirs[i])
    && bag.isRoot == (i == 0)
    && Lookup(fs, dirs[i]).Some?
    && GroupOf(fs, dirs[i], group)
  }

  /** `dependencies` maps, unlinked, the names declared by the fields read last with the
      name `n`. */
  ghost predicate UnlinkedAt(fs: Dir, build: BagBuilder, uppermost: Path, n: string, dependencies: Dict<string, Option<Bag>>)
    requires HasBag(fs, uppermost) && TreeConfigsAt(fs, build, uppermost, true).Success?
    requires n in KeysOf(TreeConfigsAt(fs, build, uppermost, true).value, FieldsName)
  {
    var fields := TreeConfigsAt(fs, build, uppermost, true).value;
    && dependencies.Valid()
    && (forall m :: m in dependencies.items ==> dependencies.items[m] == None)
    && dependencies.keys == Dedup(fields[LastKeyed(fields, FieldsName, n)].dependencies)
  }

  /** `{bag.name: bag for bag in ...}` over a tree read from `uppermost`: each name once,
      in the order first read, under it the bag read last with that name. */
  lemma IndexTree(fs: Dir, build: BagBuilder, uppermost: Path, all: seq<Bag>)
    requires WellFormed(fs) && TreeRead(fs, build, uppermost, true, all)
    ensures
      var bags, fields := Index(all, BagName), TreeConfigsAt(fs, build, uppermost, true).value;
      && bags.Valid() && bags.keys == Dedup(KeysOf(fields, FieldsName)) && NamedByKey(bags)
      && (forall b :: b in bags.items.Values ==> b in all)
      && forall n :: n in bags.items ==>
           && n in KeysOf(fields, FieldsName)
           && PlacedAt(fs, build, uppermost, n, bags.items[n], bags.items[n].group)
           && UnlinkedAt(fs, build, uppermost, n, bags.items[n].dependencies)
  {
    var bags, fields := Index(all, BagName), TreeConfigsAt(fs, build, uppermost, true).value;
    TreeReadMade(fs, build, uppermost, true, all, 0);
    assert KeysOf(all, BagName) == KeysOf(fields, FieldsName) by {
      forall i | 0 <= i < |all| ensures KeysOf(all, BagName)[i] == KeysOf(fields, FieldsName)[i] {
        TreeReadMade(fs, build, uppermost, true, all, i);
      }
    }
    forall n | n in bags.items
      ensures n in KeysOf(fields, FieldsName) && bags.items[n] in all
      ensures PlacedAt(fs, build, uppermost, n, bags.items[n], bags.items[n].group)
      ensures UnlinkedAt(fs, build, uppermost, n, bags.items[n].dependencies)
    {
      assert n in bags.keys;
      IndexAt(all, BagName, n);
      LastKeyedSame(all, BagName, fields, FieldsName, n);
      var i := LastKeyed(fields, FieldsName, n);
      TreeReadMade(fs, build, uppermost, true, all, i);
      TreeReadGroup(fs, build, uppermost, true, all, i);
    }
    forall b | b in bags.items.Values ensures b in all {
      var n :| n in bags.items && bags.items[n] == b;
    }
  }

  /** The root-context loop of `read_all_bags`: every bag of the dict gets `root`. */
  method StampRootContext(bags: Dict<string, Bag>, root: string)
    requires bags.Valid()
    modifies bags.items.Values`rootContext
    ensures forall b :: b in bags.items.Values ==> b.rootContext == Some(root)
  {
    var values := bags.Values();
    ValuesListed(bags);
    for j := 0 to |values|
      invariant forall k :: 0 <= k < j ==> values[k].rootContext == Some(root)
    {
      values[j].rootContext := Some(root);
    }
  }

  /** Every value of a dict is among the values it lists. */
  lemma ValuesListed<K, V>(d: Dict<K, V>)
    requires d.Valid()
    ensures forall v :: v in d.items.Values ==> exists k :: 0 <= k < |d.keys| && d.Values()[k] == v
  {
    forall v | v in d.items.Values ensures exists k :: 0 <= k < |d.keys| && d.Values()[k] == v {
      var n :| n in d.items && d.items[n] == v;
      var k :| 0 <= k < |d.keys| && d.keys[k] == n;
      assert d.Values()[k] == v;
    }
  }

  /** The bag under `n` is valid and holds its original dependencies `orig[n]` linked
      against the names in `done`. */
  ghost predicate LinkedAt(bags: Dict<string, Bag>, orig: map<string, Dict<string, Option<Bag>>>, n: string, done: set<string>)
    requires n in bags.items
    reads bags.items[n]
  {
    && n in orig
    && bags.items[n].Valid()
    && bags.items[n].dependencies == Resolve(orig[n], bags.items, done)
  }

  /** Every bag of `bags` is linked against `done` (see `LinkedAt`). */
  ghost predicate LinkedSoFar(bags: Dict<string, Bag>, orig: map<string, Dict<string, Option<Bag>>>, done: set<string>)
    reads bags.items.Values
  {
    forall n :: n in bags.items ==> LinkedAt(bags, orig, n, done)
  }

  /** The dependency-building loop of `read_all_bags`: for each name in order, fill the
      dependency on that bag into every bag of the dict that declares it. */
  method LinkBags(bags: Dict<string, Bag>)
    requires bags.Valid() && NamedByKey(bags)
    requires forall n :: n in bags.items ==> bags.items[n].Valid()
    modifies bags.items.Values`dependencies
    ensures forall n :: n in bags.items ==>
      && bags.items[n].Valid()
      && bags.items[n].dependencies == Resolve(old(bags.items[n].dependencies), bags.items, bags.items.Keys)
  {
    ghost var orig := map n | n in bags.items :: bags.items[n].dependencies;
    ghost var done: set<string> := {};
    forall n | n in bags.items ensures Resolve(orig[n], bags.items, {}) == orig[n] {
      ResolveNothing(orig[n], bags.items);
    }
    var names := bags.keys;
    for i := 0 to |names|
      invariant done == set k | 0 <= k < i :: names[k]
      invariant LinkedSoFar(bags, orig, done)
    {
      LinkBagName(bags, names[i], orig, done);
      NamesSoFar(names, i);
      done := done + {names[i]};
    }
    assert done == bags.items.Keys by {
      forall n | n in bags.items ensures n in done {
        assert n in names;
      }
    }
    forall n | n in bags.items
      ensures bags.items[n].Valid() && bags.items[n].dependencies == Resolve(orig[n], bags.items, bags.items.Keys)
    {
      assert LinkedAt(bags, orig, n, done);
    }
  }

  lemma NamesSoFar(names: seq<string>, i: nat)
    requires i < |names|
    ensures (set k | 0 <= k < i + 1 :: names[k]) == (set k | 0 <= k < i :: names[k]) + {names[i]}
  {
  }

  /** The inner loop: fill the dependency on the bag called `name` into every bag, in the
      dict's order, that declares it. */
  method LinkBagName(bags: Dict<string, Bag>, name: string,
                     ghost orig: map<string, Dict<string, Option<Bag>>>, ghost done: set<string>)
    requires bags.Valid() && NamedByKey(bags) && name in bags.items
    requires LinkedSoFar(bags, orig, done)
    modifies bags.items.Values`dependencies
    ensures LinkedSoFar(bags, orig, done + {name})
  {
    var values := bags.Values();
    for j := 0 to |values|
      invariant forall k :: 0 <= k < |bags.keys| ==> LinkedAt(bags, orig, bags.keys[k], if k < j then done + {name} else done)
    {
      var bag := values[j];
      ghost var key := bags.keys[j];
      label Before:
      if name in bag.dependencies.items {
        ResolveDeclared(orig[key], bags.items, done, name);
        bag.FillDependencyWithBag(bags.items[name]);
      } else {
        ResolveUndeclared(orig[key], bags.items, done, name);
      }
      forall k | 0 <= k < |bags.keys|
        ensures LinkedAt(bags, orig, bags.keys[k], if k < j + 1 then done + {name} else done)
      {
        if k != j {
          assert bags.keys[k] != key;
          assert bags.items[bags.keys[k]].name == bags.keys[k];
          assert bags.items[bags.keys[k]] != bag;
          assert unchanged@Before(bags.items[bags.keys[k]]);
        }
      }
    }
  }

  /** The rest of `read_all_bags` once the tree is read: index the bags by name, stamp
      the uppermost directory on every bag of the dict and link their dependencies. */
  method IndexBags(all: seq<Bag>, ghost fs: Dir, ghost build: BagBuilder, uppermost: Path)
    returns (bags: Dict<string, Bag>)
    requires WellFormed(fs) && TreeRead(fs, build, uppermost, true, all)
    modifies (set b | b in all)`rootContext, (set b | b in all)`dependencies
    ensures BagsRead(fs, build, uppermost, bags)
    ensures forall b :: b in bags.items.Values ==> b in all
    ensures forall b :: b in all && b !in bags.items.Values ==>
      b.rootContext == old(b.rootContext) && b.dependencies == old(b.dependencies)
  {
    bags := Index(all, BagName);
    IndexTree(fs, build, uppermost, all);
    ghost var fields := TreeConfigsAt(fs, build, uppermost, true).value;
    ghost var groups := map n | n in bags.items :: bags.items[n].group;
    ghost var unlinked := map n | n in bags.items :: bags.items[n].dependencies;
    forall n | n in bags.items
      ensures Resolve(unlinked[n], bags.items, bags.items.Keys)
        == Linking(Dedup(fields[LastKeyed(fields, FieldsName, n)].dependencies), bags.items)
    {
      ResolveUnlinked(unlinked[n], bags.items);
    }
    StampAndLink(bags, Render(uppermost), groups, unlinked);
    forall n | n in bags.items ensures StoredAt(fs, build, uppermost, bags, n) {
      assert PlacedAt(fs, build, uppermost, n, bags.items[n], groups[n]);
    }
  }

  /** The last two loops of `read_all_bags` on the indexed bags, whose groups and
      unlinked dependencies are `groups` and `unlinked`: every bag of the dict ends up
      with the root context `root` and its dependencies linked against the dict. */
  method StampAndLink(bags: Dict<string, Bag>, root: string,
                      ghost groups: map<string, seq<Bag>>, ghost unlinked: map<string, Dict<string, Option<Bag>>>)
    requires bags.Valid() && NamedByKey(bags)
    requires forall n :: n in bags.items ==>
      && n in groups && n in unlinked && unlinked[n].Valid()
      && bags.items[n].group == groups[n] && bags.items[n].dependencies == unlinked[n]
    modifies bags.items.Values`rootContext, bags.items.Values`dependencies
    ensures forall n :: n in bags.items ==>
      && bags.items[n].rootContext == Some(root)
      && bags.items[n].group == groups[n]
      && bags.items[n].Valid()
      && bags.items[n].dependencies == Resolve(unlinked[n], bags.items, bags.items.Keys)
  {
    StampRootContext(bags, root);
    LinkBags(bags);
  }

  /** `read_all_bags` once the uppermost directory is known. */
  method ReadBagsAt(fs: Dir, build: BagBuilder, uppermost: Path) returns (r: Result<Dict<string, Bag>, BagError>)
    requires WellFormed(fs)
    ensures r.Success? <==> TreeConfigsAt(fs, build, uppermost, true).Success?
    ensures r.Failure? ==> r.error == TreeConfigsAt(fs, build, uppermost, true).error
    ensures r.Failure? || BagsRead(fs, build, uppermost, r.value)
    ensures r.Success? ==> forall b :: b in r.value.items.Values ==> fresh(b)
  {
    var all := ReadBagsFrom(fs, build, uppermost);
    if all.Failure? {
      return Failure(all.error);
    }
    var bags := IndexBags(all.value, fs, build, uppermost);
    return Success(bags);
  }

  /** `read_all_bags`: walk up to the uppermost bag directory above `start`, read its bag
      and every bag below it, index them by name (a later bag replacing an earlier one of
      the same name), stamp the uppermost directory on each and link each bag's
      dependencies to the bags of those names. */
  method ReadAllBags(fs: Dir, build: BagBuilder, start: Path) returns (r: Result<Dict<string, Bag>, BagError>)
    requires WellFormed(fs) && WalkUpStops(fs, start, BagFile)
    ensures r.Success? <==> TreeConfigsAt(fs, build, Top(fs, start, BagFile), true).Success?
    ensures r.Failure? ==> r.error == TreeConfigsAt(fs, build, Top(fs, start, BagFile), true).error
    ensures r.Failure? || BagsRead(fs, build, Top(fs, start, BagFile), r.value)
    ensures r.Success? ==> forall b :: b in r.value.items.Values ==> fresh(b)
  {
    var uppermost := Uppermost(fs, start, BagFile);
    r := ReadBagsAt(fs, build, uppermost);
  }

  // ----- Picking the target bag -----

  /** `target or get_bag_name(location)`: a missing or empty target names the bag after
      the start directory. */
  function TargetName(start: Path, target: Option<string>): (name: string)
    ensures target.Some? && target.value != "" ==> name == target.value
    ensures (target.None? || target.value == "") && start != [] && ValidPath(start) ==> name == start[|start| - 1]
  {
    if target.Some? && target.value != "" then target.value
    else if start != [] && ValidPath(start) then
      GetBagNameOfDirectory(start);
      GetBagName(Render(start))
    else GetBagName(Render(start))
  }

  /** The names of the bags read from the tree above and below `start`, in the order first
      read, once the read succeeds. */
  ghost function NamesRead(fs: Dir, build: BagBuilder, start: Path): seq<string>
    requires TreeConfigsAt(fs, build, Top(fs, start, BagFile), true).Success?
  {
    KeysOf(TreeConfigsAt(fs, build, Top(fs, start, BagFile), true).value, FieldsName)
  }

  /** `parse_bags`: read every bag of the tree `start` is in, then pick the target bag by
      name, the one named after `start` unless a non-empty target is given. A failing read
      fails with its own error; a name no bag carries fails with `TargetNotFound`. */
  method ParseBags(fs: Dir, build: BagBuilder, start: Path, target: Option<string>)
    returns (r: Result<(Bag, Dict<string, Bag>), BagError>)
    requires WellFormed(fs) && WalkUpStops(fs, start, BagFile)
    ensures TreeConfigsAt(fs, build, Top(fs, start, BagFile), true).Failure? ==>
      r == Failure(TreeConfigsAt(fs, build, Top(fs, start, BagFile), true).error)
    ensures TreeConfigsAt(fs, build, Top(fs, start, BagFile), true).Success? ==>
      (r.Success? <==> TargetName(start, target) in NamesRead(fs, build, start))
    ensures (TreeConfigsAt(fs, build, Top(fs, start, BagFile), true).Success?
             && TargetName(start, target) !in NamesRead(fs, build, start)) ==>
      r == Failure(TargetNotFound(TargetName(start, target), Render(start)))
    ensures r.Failure? || (
      && BagsRead(fs, build, Top(fs, start, BagFile), r.value.1)
      && TargetName(start, target) in r.value.1.items
      && r.value.0 == r.value.1.items[TargetName(start, target)])
  {
    var name := TargetName(start, target);
    var bags :- ReadAllBags(fs, build, start);
    if name !in bags.items {
      return Failure(TargetNotFound(name, Render(start)));
    }
    return Success((bags.items[name], bags));
  }

  // ----- The bags once linked -----

  /** After `read_all_bags`, every bag of the dict holds the uppermost directory as its
      root context, and its dependencies map exactly the names it declares (each once):
      a name some bag of the dict carries is linked to that bag, any other stays `None`. */
  lemma BagsLinked(fs: Dir, build: BagBuilder, uppermost: Path, bags: Dict<string, Bag>)
    requires BagsRead(fs, build, uppermost, bags)
    ensures forall b :: b in bags.items.Values ==> b.rootContext == Some(Render(uppermost))
    ensures forall n :: n in bags.items ==>
      var fields := TreeConfigsAt(fs, build, uppermost, true).value;
      && n in KeysOf(fields, FieldsName)
      && bags.items[n].dependencies.keys == Dedup(fields[LastKeyed(fields, FieldsName, n)].dependencies)
    ensures forall n, m :: n in bags.items && m in bags.items[n].dependencies.items ==>
      && (bags.items[n].dependencies.items[m].Some? <==> m in bags.items)
      && (m in bags.items ==> bags.items[n].dependencies.items[m] == Some(bags.items[m]))
  {
    forall b | b in bags.items.Values ensures b.rootContext == Some(Render(uppermost)) {
      var n :| n in bags.items && bags.items[n] == b;
      assert StoredAt(fs, build, uppermost, bags, n);
    }
    forall n, m | n in bags.items && m in bags.items[n].dependencies.items
      ensures && (bags.items[n].dependencies.items[m].Some? <==> m in bags.items)
              && (m in bags.items ==> bags.items[n].dependencies.items[m] == Some(bags.items[m]))
    {
      assert StoredAt(fs, build, uppermost, bags, n);
    }
  }
}
