# garden configuration discovery, in Dafny

A model of the configuration core shared by garden's two tools. `piper` builds Python
pipes described by `pipe.yml` files. `travel` deploys bags described by `bag.yml` files.
Both do the same things:

- walk up from a start directory to the top of the unbroken run of directories that hold
  the unit file;
- read that unit and every unit below it, in pre-order, through directories that hold the
  unit file;
- index the units by name, a later one replacing an earlier one of the same name;
- fill each unit's `name -> None` dependency dict with the units of those names.

`piper` also parses a pipe's document against a closed set of keys. It flattens a pipe's
dependencies into a build order, deepest level first. `travel` also keeps, for each bag,
the group of bags read below it. It stamps every indexed bag with the uppermost directory
as its root context, and it picks a target bag by name.

Modules:

- `Wrappers`: `Option` and `Result`.
- `Dicts`: Python's insertion-ordered dict as keys plus a map. It covers `Put`, the dict
  comprehension `Index` (the last value wins and the first position stays) and `PutAll`.
- `Paths`: paths as segment sequences, `os.path.join`, and `basename(normpath(.))`.
- `Yaml`: a parsed document as a map of values, with `or {}` for an empty file.
- `FileTree`: the directory tree, downward discovery in pre-order, and the walk up to the
  uppermost unit directory.
- `Pipes`: the `Pipe` class, its closed-schema construction, `fill_dependency_with_pipe`,
  and `flat_dependencies` with its inner `visit`.
- `Flattening`: the dependency graph, the walk `visit` performs, the levels it records,
  the stable sort by level, and what the resulting list means.
- `PiperReader`: `piper.config.reader`.
- `DependencyLinks`: the linking loops of both readers, as a function of what they start
  from.
- `TravelReader`: `travel.config.reader` and the parts of the `Bag` class it uses.
- `FlattenExamples`: two graphs flattened by hand.

The filesystem is a finite tree. A path is a sequence of segments from the root. The
sub-directories of a directory are listed in a fixed order, which stands for the order of
`os.listdir`. Every result about discovery holds for any such order. A failing `open`, a
document the constructor refuses, and a target that is not found are `Result` failures
carrying the error the source raises.

## Model

| member | source | states |
|---|---|---|
| Paths.BaseNameIgnoresTrailingSeparator | src/python/package/piper/config/reader.py:28-29 | a trailing separator does not change the name `basename(normpath(.))` gives |
| Paths.BaseNameOfRender | src/python/package/piper/config/reader.py:28-29 | the base name of a directory below the root is its last segment |
| Paths.RenderChild | src/python/package/piper/config/reader.py:60 | the path of a listed child is `os.path.join` of its parent's path and its name |
| Dicts.Dict.Put | src/python/package/piper/config/pipe.py:29 | assigning under a key sets that entry only; a new key goes after the existing ones, which keep their order |
| Dicts.FromKeys | src/python/package/piper/config/pipe.py:17 | a dict comprehension over names mapping each to one value has each name once, in order of first occurrence |
| Dicts.DedupKeepsFirstOrder | src/python/package/piper/config/pipe.py:17 | the keys of such a dict are ordered by where each first occurs in the names |
| Dicts.Index | src/travel/package/travel/config/reader.py:44 | a dict comprehension keyed by name has each name once, in order of first occurrence |
| Dicts.IndexAt | src/travel/package/travel/config/reader.py:44 | under each name it holds the last value carrying that name |
| Dicts.IndexConcat | src/python/package/piper/config/reader.py:42-45 | indexing two lists one after the other is the first index updated by the second, as `{**a, **b}` does |
| Dicts.PutAll | src/python/package/piper/config/reader.py:42-45 | `{**a, **b}` holds the entries of both, those of `b` winning, with the keys of `a` first and then the new keys of `b` |
| Yaml.LoadDocument | src/python/package/piper/config/reader.py:20 | an empty pipe file reads as the empty document, any other as its parsed document |
| Pipes.DeclaredNames | src/python/package/piper/config/pipe.py:17 | a list of strings yields its items in order and a string yields its one-character strings; a failure names the unsupported value |
| Pipes.ParsePipeConfig | src/python/package/piper/config/pipe.py:14-26 | a document reads exactly when all its keys are among python, dependencies and requirements and its dependencies can be iterated; the names kept are distinct |
| Pipes.KnownKeysRead | src/python/package/piper/config/pipe.py:15-26 | with iterable dependencies, a document of known keys reads, keeping `python` and `requirements` when present and defaulting each absent one to `None` or `{}` and absent dependencies to none; a document with another key fails with exactly the entries outside the three as leftover |
| Pipes.ParsePipeDocument | src/python/package/piper/config/pipe.py:14-26 | round trip: the document of a configuration reads back as that configuration |
| Pipes.ParseNormalizes | src/python/package/piper/config/pipe.py:14-26 | a document that reads gives the same result as the document of what it configures |
| Pipes.DependenciesDeclared | src/python/package/piper/config/pipe.py:17 | the dependencies are exactly the declared names, each once, in order of first occurrence; none when the key is absent |
| Pipes.UnknownKeyRefused | src/python/package/piper/config/pipe.py:24-26 | any key outside the three makes construction fail; when the dependencies themselves read, the error is the leftover-configuration error and it carries that key with its value |
| Pipes.EmptyPipeFile | src/python/package/piper/config/pipe.py:16-18 | an empty pipe file takes all three defaults: no interpreter, no dependencies, empty requirements (each key's own default, in any document, is in KnownKeysRead) |
| Pipes.Pipe.constructor | src/python/package/piper/config/pipe.py:10-22 | `name` is the base name of `location`; the two derived paths are `location/package` and `location/package/requirements.txt`; every declared name maps to `None` |
| Pipes.NewPipe | src/python/package/piper/config/pipe.py:10-26 | construction succeeds exactly when the document reads; otherwise it raises the document's error; the new pipe keeps what was read, unlinked |
| Pipes.PoppedAll | src/python/package/piper/config/pipe.py:15-25 | what is left after popping the three keys is the part of the document outside them, and it is non-empty exactly when some other key is present |
| Pipes.Pipe.FillDependencyWithPipe | src/python/package/piper/config/pipe.py:28-29 | only the entry for the given pipe's name changes, to that pipe; a new name goes at the end, and the other keys keep their order |
| Pipes.Visit | src/python/package/piper/config/pipe.py:33-37 | `visit` fails exactly when an unresolved entry is reachable through linked entries; otherwise it returns the `visited` dict updated by every level assignment of the walk below the pipe, in walk order |
| Pipes.VisitStep | src/python/package/piper/config/pipe.py:34-36 | one pass of the loop records dependency `i` at the current level, then everything below it one level deeper |
| Pipes.Pipe.FlatDependencies | src/python/package/piper/config/pipe.py:31-41 | it succeeds exactly when every reachable entry is linked; it then returns the recorded pipes stably sorted by decreasing level |
| Flattening.LinkedStep | src/python/package/piper/config/pipe.py:34-36 | the loop can go past dependency `n` exactly when that entry is resolved and linked all the way down |
| Flattening.UnresolvedReached | src/python/package/piper/config/pipe.py:34-36 | if the walk fails, a dependency chain from the start leads to a pipe holding an unresolved entry |
| Flattening.ReachedUnresolved | src/python/package/piper/config/pipe.py:34-36 | a chain from the start to a pipe holding an unresolved entry makes the walk fail |
| Flattening.Step | src/python/package/piper/config/pipe.py:35 | one assignment `visited[x] = max(level, visited.get(x, level))`: x ends up with the larger of its earlier level and `level`, a new x goes last, and the dict stays well formed |
| Flattening.RecordKeys | src/python/package/piper/config/pipe.py:35 | the recorded pipes are the walk's pipes in order of first visit |
| Flattening.RecordBounds | src/python/package/piper/config/pipe.py:35 | each recorded level is at least every level the walk assigned that pipe |
| Flattening.RecordAttained | src/python/package/piper/config/pipe.py:35 | each recorded level is one the walk actually assigned to that pipe |
| Flattening.WalkToPath | src/python/package/piper/config/pipe.py:33-37 | a pipe the walk from level `l0` visits at level `l` ends a dependency path of `l - l0 + 1` edges from the start |
| Flattening.PathToWalk | src/python/package/piper/config/pipe.py:33-37 | the end of every dependency path from the start is visited, by the walk from level `l0`, at level `l0` plus its edge count minus one |
| Flattening.SortByLevel | src/python/package/piper/config/pipe.py:40 | the insertion sort that stands for `sorted(..., key=level, reverse=True)`; its result is a permutation of its input |
| Flattening.SortByLevelSpec | src/python/package/piper/config/pipe.py:40 | the sort puts higher levels first, keeps the order of equal levels, and keeps a distinct list distinct; it is a permutation |
| Flattening.FlattenListsEachOnce | src/python/package/piper/config/pipe.py:39-40 | each reachable pipe is listed exactly once |
| Flattening.FlattenReached | src/python/package/piper/config/pipe.py:33-40 | every listed pipe ends a dependency path from the start whose edge count is its level plus one |
| Flattening.FlattenLongest | src/python/package/piper/config/pipe.py:33-40 | the end of every dependency path from the start is listed, at a level no lower than the path's edge count minus one; with FlattenReached, a pipe's level is its longest path's edge count minus one |
| Flattening.FlattenExcludesStart | src/python/package/piper/config/pipe.py:33-40 | on an acyclic graph the start pipe is never listed |
| Flattening.FlattenSorted | src/python/package/piper/config/pipe.py:40 | the list runs from the deepest level to the shallowest |
| Flattening.DependencyDeeper | src/python/package/piper/config/pipe.py:35-36 | a dependency of a listed pipe is listed at a strictly deeper level |
| Flattening.FlattenDependenciesFirst | src/python/package/piper/config/pipe.py:40 | every listed pipe comes before each listed pipe that depends on it |
| Flattening.FlattenStable | src/python/package/piper/config/pipe.py:40 | pipes of equal level keep the order in which the walk first reached them |
| FlattenExamples.ChainExample | src/python/package/piper/config/pipe.py:31-41 | C depending on A depending on B flattens to [B, A] |
| FlattenExamples.SharedExample | src/python/package/piper/config/pipe.py:35 | a pipe reached at levels 0 and 1 is listed once, at level 1, before a pipe at level 0 |
| FileTree.LookupChild | src/python/package/piper/config/reader.py:59-60 | the path joined from a listed entry leads to that entry |
| FileTree.Discover | src/python/package/piper/config/reader.py:55-64 | the directories `_read_pipes_from` visits: for each listed sub-directory that holds the unit file, that directory and then everything found below it, in listing order |
| FileTree.DiscoverSound | src/python/package/piper/config/reader.py:55-64 | each discovered directory lies strictly below the start, exists, and is reached through directories that all hold the unit file |
| FileTree.DiscoverExactly | src/python/package/piper/config/reader.py:55-64 | a path is discovered exactly when it lies strictly below the start and every directory down to it holds the unit file; the start is never listed, and a directory without the file is never entered |
| FileTree.DiscoverDistinct | src/python/package/piper/config/reader.py:55-64 | no directory is discovered twice |
| FileTree.DiscoverPreOrder | src/python/package/piper/config/reader.py:55-64 | pre-order: each discovered directory is followed immediately by exactly the directories discovered below it |
| FileTree.Top | src/python/package/piper/config/reader.py:35-38 | the top of the run of unit directories above `start`: a prefix of `start`; when `start` holds the file, so does the top, and the top's parent does not unless the top is the root |
| FileTree.Uppermost | src/python/package/piper/config/reader.py:35-38 | a start without the unit file is returned as is; otherwise the result is the highest ancestor such that every directory from the start up to it holds the file and its parent does not. The same loop is `read_all_bags`' |
| PiperReader.HasPipe | src/python/package/piper/config/reader.py:24-25 | `_has_pipe`: the directory exists and itself lists `pipe.yml`; nothing below it is looked at |
| PiperReader.HasPipeIsLocal | src/python/package/piper/config/reader.py:24-25 | `_has_pipe` depends only on the files the directory itself lists: two trees that agree on them agree on `_has_pipe`, whatever their sub-directories hold |
| PiperReader.GetPipeName | src/python/package/piper/config/reader.py:28-29 | `basename(normpath(location))`; the name holds no separator |
| PiperReader.GetPipeNameOfDirectory | src/python/package/piper/config/reader.py:28-29 | a pipe directory's name is its last segment, with or without a trailing separator |
| PiperReader.PipeConfigAt | src/python/package/piper/config/reader.py:15-21 | what `_read_pipe` yields: the configuration of the directory's pipe file, which exists only where `_has_pipe` holds; without the file, the error of the failing `open` |
| PiperReader.PipeConfigsAt | src/python/package/piper/config/reader.py:55-64 | reading pipe files in order succeeds exactly when each one reads; it then gives each one's configuration, and otherwise the error of one that fails |
| PiperReader.PipeConfigsAtConcat | src/python/package/piper/config/reader.py:55-64 | reading two runs of pipe files one after the other is reading them together |
| PiperReader.ReadPipe | src/python/package/piper/config/reader.py:15-21 | `_read_pipe` succeeds exactly when the pipe file exists and its document reads; the pipe is made from it |
| PiperReader.ReadPipesFrom | src/python/package/piper/config/reader.py:55-64 | `_read_pipes_from` reads the pipes of exactly the discovered directories, in pre-order, or fails with the first error on the way |
| PiperReader.ReadEntry | src/python/package/piper/config/reader.py:59-63 | one listed entry contributes its pipe followed by the pipes below it, or nothing when it holds no pipe file |
| PiperReader.ReadOn | src/python/package/piper/config/reader.py:58-63 | the listing loop's invariant carries over one entry |
| PiperReader.StopAt | src/python/package/piper/config/reader.py:58-63 | the loop's failure at an entry is the failure of the whole read |
| PiperReader.IndexBuilt | src/python/package/piper/config/reader.py:42-45 | indexing by name: each name once in order of first reading, and under it the pipe of the last directory with that name |
| PiperReader.Merged | src/python/package/piper/config/reader.py:42-45 | the dict built from the main pipe and the nested ones keeps each name once, in order of first reading, and holds under it one of the pipes read, made from the last directory of that name, even where that replaces the main pipe |
| PiperReader.Link | src/python/package/piper/config/reader.py:48-51 | after the linking loops every pipe's dependencies are its declared ones filled in against all the names of the dict |
| PiperReader.LinkName | src/python/package/piper/config/reader.py:49-51 | one pass of the outer loop fills in the one name in every pipe that declares it and changes nothing else |
| PiperReader.ReadPipesUnder | src/python/package/piper/config/reader.py:41-44 | the main pipe followed by the nested ones is the read of the uppermost directory and every discovered one |
| PiperReader.IndexPipes | src/python/package/piper/config/reader.py:42-51 | merging and linking give the dict of the pipes read, each linked against the dict |
| PiperReader.ReadPipesAt | src/python/package/piper/config/reader.py:41-52 | the result once the uppermost directory is known: the error of the first pipe file that fails, or the indexed and linked pipes |
| PiperReader.ReadAllPipes | src/python/package/piper/config/reader.py:32-52 | `read_all_pipes` reads from the top of the run of pipe directories above the start and returns the pipes indexed and linked |
| PiperReader.ReadGraph | src/python/package/piper/config/reader.py:48-51 | after reading, a declared name is linked exactly when a pipe of that name was read, and then to that pipe; the dependency dicts form a graph over the pipes read |
| DependencyLinks.Resolve | src/python/package/piper/config/reader.py:48-51 | linking a set of names never changes the declared keys or their order |
| DependencyLinks.ResolveDeclared | src/python/package/piper/config/reader.py:50-51 | linking one more name that a unit declares sets that entry to the unit of that name |
| DependencyLinks.ResolveUndeclared | src/python/package/piper/config/reader.py:50-51 | a name a unit does not declare leaves its dict unchanged |
| DependencyLinks.ResolveInAnyOrder | src/python/package/piper/config/reader.py:48-51 | the outcome does not depend on the order the names are linked in |
| DependencyLinks.LinkingFinds | src/python/package/piper/config/reader.py:48-51 | a declared name present among the units maps to that unit, and an absent one stays `None`, with no error |
| DependencyLinks.ResolveUnlinked | src/python/package/piper/config/reader.py:48-51 | linking every name of the dict into an unlinked dependency dict gives exactly that |
| TravelReader.HasBag | src/travel/package/travel/config/reader.py:27-28 | `has_bag`: the directory exists and itself lists `bag.yml`; nothing below it is looked at |
| TravelReader.HasBagIsLocal | src/travel/package/travel/config/reader.py:27-28 | `has_bag` depends only on the files the directory itself lists: two trees that agree on them agree on `has_bag`, whatever their sub-directories hold |
| TravelReader.GetBagName | src/travel/package/travel/config/reader.py:31-32 | a bag's name holds no separator |
| TravelReader.GetBagNameOfDirectory | src/travel/package/travel/config/reader.py:31-32 | a bag directory's name is its last segment, with or without a trailing separator |
| TravelReader.BagConfigAt | src/travel/package/travel/config/reader.py:17-24 | reading a bag file succeeds only where `has_bag` holds |
| TravelReader.BagConfigsAtEach | src/travel/package/travel/config/reader.py:82-87 | reading bag files in order succeeds exactly when each one reads; it then gives each one's fields, and otherwise the error of one that fails |
| TravelReader.BagConfigsAtConcat | src/travel/package/travel/config/reader.py:82-87 | reading two runs of bag files one after the other is reading them together |
| TravelReader.TreeConfigsAsList | src/travel/package/travel/config/reader.py:74-87 | below the root, reading a tree is reading its directories in pre-order |
| TravelReader.Bag.constructor | src/travel/package/travel/config/reader.py:23-24 | a new bag carries its location, its name and the root flag; each declared name appears once, mapped to `None`; it has no group and no root context yet |
| TravelReader.Bag.FillDependencyWithBag | src/travel/package/travel/config/reader.py:52-53 | only the entry for the given bag's name changes, to that bag; a new name goes at the end |
| TravelReader.BuiltEach | src/travel/package/travel/config/reader.py:78-87 | bags built list by list are built position by position |
| TravelReader.GroupedEach | src/travel/package/travel/config/reader.py:86-90 | groups set subtree by subtree are, at each position, the bags of that position's subtree |
| TravelReader.ReadBag | src/travel/package/travel/config/reader.py:17-24 | `read_bag` fails with the missing file or the constructor's error; otherwise it makes a new root bag or plain bag from the fields |
| TravelReader.ReadBagsFromRecursive | src/travel/package/travel/config/reader.py:74-91 | `read_bags_from_recursive` fails with the first error in pre-order; otherwise it returns the bag of the directory followed by one new bag per bag directory below it in pre-order, each with the group of bags below it |
| TravelReader.TreeReadCons | src/travel/package/travel/config/reader.py:90-91 | the bag, given the group read below it, followed by that group is the tree read |
| TravelReader.ReadGroup | src/travel/package/travel/config/reader.py:82-87 | the listing loop reads the bags of the discovered directories below, in pre-order, or fails with the first error |
| TravelReader.ReadNext | src/travel/package/travel/config/reader.py:83-87 | one listed entry adds the subtree read from it to the group, or nothing when it holds no bag file; a failure here is the failure of the whole listing |
| TravelReader.GroupOnEmpty | src/travel/package/travel/config/reader.py:84 | a sub-directory without a bag file leaves the group as it is |
| TravelReader.GroupOnTree | src/travel/package/travel/config/reader.py:85-87 | a subtree read cleanly extends the group by its bags |
| TravelReader.StopAt | src/travel/package/travel/config/reader.py:82-87 | the loop's failure at an entry is the failure of the whole read |
| TravelReader.ReadBagsFrom | src/travel/package/travel/config/reader.py:70-71 | `read_bags_from` reads the tree of the uppermost directory with its bag as the root bag |
| TravelReader.SubtreeWalk | src/travel/package/travel/config/reader.py:74-91 | the walk of a tree is in pre-order and visits the directory, then the discovered ones |
| TravelReader.TreeReadMade | src/travel/package/travel/config/reader.py:78-87 | position `i` of a tree read holds the bag made from the `i`-th directory's fields; it is a root bag only at the top of the top read |
| TravelReader.TreeReadGroup | src/travel/package/travel/config/reader.py:86-90 | the group of the bag at position `i` holds exactly the bags read below its directory, in pre-order |
| TravelReader.WalkGroup | src/travel/package/travel/config/reader.py:86-90 | in a pre-ordered walk, the subtree span after position `i` holds the bags below the `i`-th directory |
| TravelReader.TreeReadTop | src/travel/package/travel/config/reader.py:77-91 | the first bag is the root bag exactly when the read is the top one and no later bag is; the first bag's group is the returned list minus that bag |
| TravelReader.IndexTree | src/travel/package/travel/config/reader.py:44 | indexing by name: each name once in order of first reading, and under it the bag read last with that name, with its directory, root flag and group |
| TravelReader.StampRootContext | src/travel/package/travel/config/reader.py:46-47 | every bag of the dict gets the uppermost directory as its root context |
| TravelReader.LinkBags | src/travel/package/travel/config/reader.py:50-53 | after the linking loops every bag's dependencies are its declared ones filled in against all the names of the dict |
| TravelReader.LinkBagName | src/travel/package/travel/config/reader.py:51-53 | one pass of the outer loop fills in the one name in every bag that declares it and changes nothing else |
| TravelReader.StampAndLink | src/travel/package/travel/config/reader.py:46-53 | after both loops every bag of the dict holds the root context and its declared dependencies filled in against the dict, and keeps its group |
| TravelReader.IndexBags | src/travel/package/travel/config/reader.py:44-53 | indexing, stamping and linking give the dict `read_all_bags` returns |
| TravelReader.ReadBagsAt | src/travel/package/travel/config/reader.py:44-54 | the result once the uppermost directory is known: the first read error, or the dict of bags |
| TravelReader.ReadAllBags | src/travel/package/travel/config/reader.py:35-54 | `read_all_bags` reads from the top of the run of bag directories above the start and returns the bags indexed, stamped and linked |
| TravelReader.BagsLinked | src/travel/package/travel/config/reader.py:46-53 | after reading, every bag of the dict holds the uppermost directory; its dependency keys are the declared names, each once; a name is linked exactly when a bag of that name was read, and then to that bag |
| TravelReader.TargetName | src/travel/package/travel/config/reader.py:60 | `target or get_bag_name(location)`: a non-empty target is kept; a missing or empty one becomes the start directory's last segment |
| TravelReader.ParseBags | src/travel/package/travel/config/reader.py:57-67 | a read error comes first; the target defaults to the start directory's name when missing or empty; a name no bag carries is `ValueError`; otherwise the result is that bag and the dict |

## Left out

- YAML parsing is not modelled. A pipe or bag file holds an already parsed document, or
  nothing for an empty file.
- The real filesystem is a finite tree of directories. Plain files other than the unit
  file, symbolic links, and failures of `listdir` are not modelled. `listdir` order is the
  tree's fixed order.
- `normpath` is modelled as stripping trailing separators only. `.` and `..` segments and
  platform separators are not resolved.
- Paths are absolute segment sequences, and `Path(location).parent` is dropping the last
  segment. A relative start directory is not modelled.
- The walk up from the start does not terminate when every directory up to the filesystem
  root holds the unit file. `FileTree.Uppermost` and both readers therefore require that
  some directory on the way up lacks it.
- `flat_dependencies` does not terminate on a dependency cycle, including a
  self-dependency. `Pipes.Pipe.FlatDependencies` requires a ranking that proves the graph
  acyclic.
- `flat_dependencies` raises `AttributeError` when it reaches an unlinked `None` entry.
  The model returns `UnresolvedDependency` instead, without the partial `visited` dict.
- `Pipes.DeclaredNames`: Python iterates any iterable under `dependencies`. The model
  accepts a list of strings, whose items it takes, or a string, whose characters it
  takes. A list holding non-strings, a mapping, or a number is refused with
  `UnsupportedDependencies`, even though Python would accept a list of numbers or a
  mapping's keys.
- The `Bag`, `RootBag` and `BaseBag` constructors are not part of this model. The bag
  readers take them as a function parameter that maps the location, the document and the
  root flag to a name and a list of declared dependency names, or to an error message.
  `fill_dependency_with_bag` is modelled like `fill_dependency_with_pipe`. A new bag's
  dependency dict is assumed to be built like a pipe's (src/python/package/piper/config/pipe.py:17),
  with the declared names, each once, mapped to `None`. It is also assumed to start with
  an empty group and no root context.
- `root_context` is stamped only on the bags that are values of the dict. A bag shadowed
  by a later bag of the same name stays in its parent's group without a root context. The
  model follows the code here, and `TravelReader.IndexBags` states it: such a bag keeps its
  old root context and dependencies.
- Logging, the `travel` command line, and the test fixtures are not modelled.
- `__str__` and `__repr__` of `Pipe` are not modelled.
