/** The filesystem the readers walk, as a finite tree, and what both readers do with it:
    test whether a directory directly holds a unit file, list the unit directories below a
    directory in pre-order, and walk up to the uppermost directory of a run of unit files. */
module FileTree {
  import opened Wrappers
  import opened Paths
  import opened Yaml
  import opened Dicts

  /** A directory: the unit files it directly holds (by file name) and its
      sub-directories in the order `os.listdir` returns them. */
  datatype Dir = Dir(files: map<string, UnitFile>, subdirs: seq<Entry>)

  datatype Entry = Entry(name: string, dir: Dir)

  /** A directory found by a downward walk, with the path it was reached by. */
  datatype Found = Found(path: Path, dir: Dir)

  predicate DistinctNames(es: seq<Entry>) {
    forall i, j :: 0 <= i < j < |es| ==> es[i].name != es[j].name
  }

  /** What any real directory tree satisfies: listings hold proper, distinct names. */
  ghost predicate WellFormed(d: Dir) {
    && DistinctNames(d.subdirs)
    && (forall i :: 0 <= i < |d.subdirs| ==> ValidSegment(d.subdirs[i].name))
    && (forall i :: 0 <= i < |d.subdirs| ==> WellFormed(d.subdirs[i].dir))
  }

  /** Index of the entry called `name`, if any. */
  function FindEntry(es: seq<Entry>, name: string): (r: Option<nat>)
    ensures r.Some? ==> r.value < |es| && es[r.value].name == name
    ensures r.None? ==> forall i :: 0 <= i < |es| ==> es[i].name != name
  {
    if es == [] then None
    else if es[0].name == name then Some(0)
    else match FindEntry(es[1..], name)
      case None => None
      case Some(i) => Some(i + 1)
  }

  /** The directory at path `p` below `d`, if there is one. */
  function Lookup(d: Dir, p: Path): Option<Dir>
    decreases p
  {
    if p == [] then Some(d)
    else match FindEntry(d.subdirs, p[0])
      case None => None
      case Some(i) => Lookup(d.subdirs[i].dir, p[1..])
  }

  /** `os.path.isfile(os.path.join(location, file))`: the directory directly holds the file. */
  predicate HasFile(fs: Dir, location: Path, file: string) {
    Lookup(fs, location).Some? && file in Lookup(fs, location).value.files
  }

  /** `os.listdir(location)`, restricted to the sub-directories. */
  function ListDir(fs: Dir, location: Path): (names: seq<string>)
    requires Lookup(fs, location).Some?
    ensures |names| == |Lookup(fs, location).value.subdirs|
    ensures forall i :: 0 <= i < |names| ==> names[i] == Lookup(fs, location).value.subdirs[i].name
  {
    NamesOf(Lookup(fs, location).value.subdirs)
  }

  function NamesOf(es: seq<Entry>): (names: seq<string>)
    ensures |names| == |es| && forall i :: 0 <= i < |es| ==> names[i] == es[i].name
  {
    if es == [] then [] else [es[0].name] + NamesOf(es[1..])
  }

  /** `Path(location).parent`: the root is its own parent. */
  function Parent(p: Path): (q: Path)
    ensures p != [] ==> q == p[..|p| - 1]
    ensures p == [] ==> q == []
  {
    if p == [] then [] else p[..|p| - 1]
  }

  // ----- Lookup along concatenated paths -----

  lemma {:induction false} LookupConcat(d: Dir, a: Path, b: Path)
    ensures Lookup(d, a + b) == if Lookup(d, a).Some? then Lookup(Lookup(d, a).value, b) else None
    decreases a
  {
    if a == [] {
      assert a + b == b;
    } else {
      assert (a + b)[0] == a[0] && (a + b)[1..] == a[1..] + b;
      match FindEntry(d.subdirs, a[0])
      case None =>
      case Some(i) => LookupConcat(d.subdirs[i].dir, a[1..], b);
    }
  }

  lemma {:induction false} LookupWellFormed(d: Dir, p: Path)
    requires WellFormed(d) && Lookup(d, p).Some?
    ensures WellFormed(Lookup(d, p).value)
    decreases p
  {
    if p != [] {
      var i := FindEntry(d.subdirs, p[0]).value;
      LookupWellFormed(d.subdirs[i].dir, p[1..]);
    }
  }

  lemma FindDistinct(es: seq<Entry>, i: nat)
    requires DistinctNames(es) && i < |es|
    ensures FindEntry(es, es[i].name) == Some(i)
  {
    var r := FindEntry(es, es[i].name);
    assert r.Some?;
  }

  /** The path of a listed child leads to that child. */
  lemma LookupChild(fs: Dir, p: Path, i: nat)
    requires WellFormed(fs) && Lookup(fs, p).Some? && i < |Lookup(fs, p).value.subdirs|
    ensures Lookup(fs, p + [Lookup(fs, p).value.subdirs[i].name]) == Some(Lookup(fs, p).value.subdirs[i].dir)
  {
    var d := Lookup(fs, p).value;
    LookupWellFormed(fs, p);
    LookupConcat(fs, p, [d.subdirs[i].name]);
    FindDistinct(d.subdirs, i);
    assert [d.subdirs[i].name][1..] == [];
  }

  // ----- Downward discovery in pre-order -----

  /** The unit directories reachable from the first `n` entries of `d` through directories
      that each hold `file`, in pre-order (each one followed by its own descendants). */
  function Below(d: Dir, location: Path, file: string, n: nat): seq<Found>
    requires n <= |d.subdirs|
    decreases d, n
  {
    if n == 0 then []
    else
      var e := d.subdirs[n - 1];
      assert e in d.subdirs;
      Below(d, location, file, n - 1)
        + (if file in e.dir.files then Subtree(e.dir, location + [e.name], file) else [])
  }

  /** `d` itself followed by everything discovered below it. */
  function Subtree(d: Dir, location: Path, file: string): seq<Found>
    decreases d, |d.subdirs| + 1
  {
    [Found(location, d)] + Below(d, location, file, |d.subdirs|)
  }

  /** Every unit directory strictly below `location`, in pre-order. */
  function Discover(fs: Dir, location: Path, file: string): seq<Found>
    requires Lookup(fs, location).Some?
  {
    var d := Lookup(fs, location).value;
    Below(d, location, file, |d.subdirs|)
  }

  function PathsOf(xs: seq<Found>): (ps: seq<Path>)
    ensures |ps| == |xs| && forall i :: 0 <= i < |xs| ==> ps[i] == xs[i].path
  {
    if xs == [] then [] else [xs[0].path] + PathsOf(xs[1..])
  }

  /** Every directory from just below `location` down to `q` holds `file`. */
  ghost predicate ChainHolds(fs: Dir, location: Path, q: Path, file: string) {
    forall k :: |location| < k <= |q| ==> HasFile(fs, q[..k], file)
  }

  predicate StrictlyBelow(q: Path, location: Path) {
    |q| > |location| && q[..|location|] == location
  }

  /** Relative form of `ChainHolds`: every prefix of `s` names a directory below `d`
      holding `file`. */
  ghost predicate RelChain(d: Dir, s: Path, file: string) {
    forall k :: 1 <= k <= |s| ==> HasFile(d, s[..k], file)
  }

  /** `x` lies strictly below `location`, is the directory at its path, and is reached
      from `d` through directories that each hold `file`. */
  ghost predicate Under(d: Dir, location: Path, file: string, x: Found) {
    && StrictlyBelow(x.path, location)
    && Lookup(d, x.path[|location|..]) == Some(x.dir)
    && RelChain(d, x.path[|location|..], file)
  }

  lemma BelowPrefix(d: Dir, location: Path, file: string, m: nat, n: nat)
    requires m <= n <= |d.subdirs|
    ensures forall x :: x in Below(d, location, file, m) ==> x in Below(d, location, file, n)
    decreases n
  {
    if m < n {
      BelowPrefix(d, location, file, m, n - 1);
    }
  }

  lemma PathsOfConcat(a: seq<Found>, b: seq<Found>)
    ensures PathsOf(a + b) == PathsOf(a) + PathsOf(b)
  {
  }

  /** Every element of `xs` lies under `d` (see `Under`) and enters it through one of
      `names`. */
  ghost predicate Shaped(d: Dir, location: Path, file: string, xs: seq<Found>, names: seq<string>) {
    forall x :: x in xs ==> Under(d, location, file, x) && x.path[|location|] in names
  }

  lemma ShapedConcat(d: Dir, location: Path, file: string, a: seq<Found>, b: seq<Found>, na: seq<string>, nb: seq<string>)
    requires Shaped(d, location, file, a, na) && Shaped(d, location, file, b, nb)
    ensures Shaped(d, location, file, a + b, na + nb)
  {
  }

  /** Everything `Below` lists lies strictly below `location`, under one of the first `n`
      entries, is reached through unit directories only, and is the directory found there. */
  lemma {:induction false} BelowShape(d: Dir, location: Path, file: string, n: nat)
    requires WellFormed(d) && n <= |d.subdirs|
    ensures Shaped(d, location, file, Below(d, location, file, n), NamesOf(d.subdirs[..n]))
    decreases d, n
  {
    if n > 0 {
      var e := d.subdirs[n - 1];
      var prefix := Below(d, location, file, n - 1);
      NamesOfSnoc(d.subdirs, n);
      BelowShape(d, location, file, n - 1);
      var sub := if file in e.dir.files then Subtree(e.dir, location + [e.name], file) else [];
      assert Below(d, location, file, n) == prefix + sub;
      if file in e.dir.files {
        EntryShaped(d, location, file, n - 1);
      }
      ShapedConcat(d, location, file, prefix, sub, NamesOf(d.subdirs[..n - 1]), [e.name]);
    }
  }

  lemma NamesOfSnoc(es: seq<Entry>, n: nat)
    requires 0 < n <= |es|
    ensures NamesOf(es[..n]) == NamesOf(es[..n - 1]) + [es[n - 1].name]
  {
  }

  lemma {:induction false} EntryShaped(d: Dir, location: Path, file: string, i: nat)
    requires WellFormed(d) && i < |d.subdirs| && file in d.subdirs[i].dir.files
    ensures var e := d.subdirs[i];
      Shaped(d, location, file, Subtree(e.dir, location + [e.name], file), [e.name])
    decreases d, i, 1
  {
    var e := d.subdirs[i];
    forall x | x in Subtree(e.dir, location + [e.name], file)
      ensures Under(d, location, file, x) && x.path[|location|] in [e.name]
    {
      EntryShape(d, location, file, i, x);
    }
  }

  /** What the subtree of entry `i` contributes lies under that entry, through unit
      directories only. */
  lemma {:induction false} EntryShape(d: Dir, location: Path, file: string, i: nat, x: Found)
    requires WellFormed(d) && i < |d.subdirs| && file in d.subdirs[i].dir.files
    requires x in Subtree(d.subdirs[i].dir, location + [d.subdirs[i].name], file)
    ensures Under(d, location, file, x) && x.path[|location|] == d.subdirs[i].name
    decreases d, i, 0
  {
    var e := d.subdirs[i];
    var q := location + [e.name];
    assert e in d.subdirs;
    FindDistinct(d.subdirs, i);
    if x == Found(q, e.dir) {
      var s := x.path[|location|..];
      assert s == [e.name];
      assert Lookup(e.dir, []) == Some(e.dir);
      forall k | 1 <= k <= |s| ensures HasFile(d, s[..k], file) {
        assert s[..k] == s;
      }
    } else {
      assert x in Below(e.dir, q, file, |e.dir.subdirs|);
      assert Under(e.dir, q, file, x) by {
        BelowShape(e.dir, q, file, |e.dir.subdirs|);
      }
      DeeperShape(d, location, file, i, x);
    }
  }

  /** A directory found below entry `i` (not the entry itself). */
  lemma DeeperShape(d: Dir, location: Path, file: string, i: nat, x: Found)
    requires i < |d.subdirs| && file in d.subdirs[i].dir.files
    requires FindEntry(d.subdirs, d.subdirs[i].name) == Some(i)
    requires Under(d.subdirs[i].dir, location + [d.subdirs[i].name], file, x)
    ensures Under(d, location, file, x) && x.path[|location|] == d.subdirs[i].name
  {
    var e := d.subdirs[i];
    var q := location + [e.name];
    var s, s' := x.path[|location|..], x.path[|q|..];
    assert x.path[..|q|] == q;
    assert s == [e.name] + s';
    LookupUnder(d, i, s');
    RelChainCons(d, i, s', file);
  }

  /** Below entry `i`, paths lead where they lead from that entry's directory. */
  lemma LookupUnder(d: Dir, i: nat, t: Path)
    requires i < |d.subdirs| && FindEntry(d.subdirs, d.subdirs[i].name) == Some(i)
    ensures Lookup(d, [d.subdirs[i].name] + t) == Lookup(d.subdirs[i].dir, t)
  {
    var p := [d.subdirs[i].name] + t;
    assert p[0] == d.subdirs[i].name && p[1..] == t;
  }

  /** A chain of unit directories below entry `i` extends to one below `d` when the entry
      holds the unit file, and back. */
  lemma RelChainCons(d: Dir, i: nat, t: Path, file: string)
    requires i < |d.subdirs| && FindEntry(d.subdirs, d.subdirs[i].name) == Some(i)
    requires file in d.subdirs[i].dir.files
    ensures RelChain(d, [d.subdirs[i].name] + t, file) <==> RelChain(d.subdirs[i].dir, t, file)
  {
    var n, c := d.subdirs[i].name, d.subdirs[i].dir;
    var s := [n] + t;
    forall k | 1 <= k <= |s| ensures HasFile(d, s[..k], file) <==> (k == 1 || HasFile(c, t[..k - 1], file)) {
      assert s[..k] == [n] + t[..k - 1];
      LookupUnder(d, i, t[..k - 1]);
      if k == 1 {
        assert t[..0] == [];
      }
    }
    if RelChain(c, t, file) {
      forall k | 1 <= k <= |s| ensures HasFile(d, s[..k], file) {
        if k == 1 {
          assert t[..0] == [];
        }
      }
    }
    if RelChain(d, s, file) {
      forall k | 1 <= k <= |t| ensures HasFile(c, t[..k], file) {
        assert HasFile(d, s[..k + 1], file);
      }
    }
  }

  /** Discovery is sound: each entry is strictly below the start, is the directory at its
      path, and every directory from just below the start down to it holds the file. */
  lemma DiscoverSound(fs: Dir, location: Path, file: string)
    requires WellFormed(fs) && Lookup(fs, location).Some?
    ensures forall x :: x in Discover(fs, location, file) ==>
      && StrictlyBelow(x.path, location)
      && Lookup(fs, x.path) == Some(x.dir)
      && ChainHolds(fs, location, x.path, file)
  {
    var d := Lookup(fs, location).value;
    LookupWellFormed(fs, location);
    BelowShape(d, location, file, |d.subdirs|);
    forall x | x in Discover(fs, location, file)
      ensures Lookup(fs, x.path) == Some(x.dir) && ChainHolds(fs, location, x.path, file)
    {
      var s := x.path[|location|..];
      assert x.path == location + s;
      LookupConcat(fs, location, s);
      forall k | |location| < k <= |x.path| ensures HasFile(fs, x.path[..k], file) {
        assert x.path[..k] == location + s[..k - |location|];
        LookupConcat(fs, location, s[..k - |location|]);
      }
    }
  }

  /** Relative completeness: a chain of unit directories below `d` is discovered. */
  lemma {:induction false} BelowComplete(d: Dir, location: Path, file: string, s: Path)
    requires WellFormed(d) && s != [] && RelChain(d, s, file)
    ensures location + s in PathsOf(Below(d, location, file, |d.subdirs|))
    decreases |s|, 1
  {
    assert s[..1] == [s[0]];
    assert HasFile(d, [s[0]], file);
    var j := FindEntry(d.subdirs, s[0]).value;
    var c := d.subdirs[j].dir;
    var q := location + [s[0]];
    assert s == [s[0]] + s[1..];
    LookupUnder(d, j, []);
    assert [s[0]] + [] == [s[0]];
    assert file in c.files;
    var found := CompleteUnder(d, location, file, j, s[1..]);
    assert Below(d, location, file, j + 1) == Below(d, location, file, j) + Subtree(c, q, file);
    BelowPrefix(d, location, file, j + 1, |d.subdirs|);
    assert found in Below(d, location, file, |d.subdirs|);
    var all := Below(d, location, file, |d.subdirs|);
    var i :| 0 <= i < |all| && all[i] == found;
    assert PathsOf(all)[i] == location + s;
  }

  /** The step of `BelowComplete`: the rest `t` of the chain is found in the subtree of
      entry `j`. */
  lemma {:induction false} CompleteUnder(d: Dir, location: Path, file: string, j: nat, t: Path)
    returns (found: Found)
    requires WellFormed(d) && j < |d.subdirs| && FindEntry(d.subdirs, d.subdirs[j].name) == Some(j)
    requires file in d.subdirs[j].dir.files
    requires RelChain(d, [d.subdirs[j].name] + t, file)
    ensures var q := location + [d.subdirs[j].name];
      found in Subtree(d.subdirs[j].dir, q, file) && found.path == q + t
    decreases |t| + 1, 0
  {
    var c := d.subdirs[j].dir;
    var q := location + [d.subdirs[j].name];
    if t == [] {
      found := Found(q, c);
      assert q + t == q;
    } else {
      assert c == d.subdirs[j].dir && d.subdirs[j] in d.subdirs;
      RelChainCons(d, j, t, file);
      BelowComplete(c, q, file, t);
      var ps := PathsOf(Below(c, q, file, |c.subdirs|));
      var i :| 0 <= i < |ps| && ps[i] == q + t;
      found := Below(c, q, file, |c.subdirs|)[i];
      assert found in Subtree(c, q, file);
    }
  }

  /** Discovery is exact: a path is discovered iff it lies strictly below the start and
      every directory from just below the start down to it holds the file. In particular
      the start itself is never listed and a directory without the file is never entered. */
  lemma DiscoverExactly(fs: Dir, location: Path, file: string, q: Path)
    requires WellFormed(fs) && Lookup(fs, location).Some?
    ensures q in PathsOf(Discover(fs, location, file))
        <==> StrictlyBelow(q, location) && ChainHolds(fs, location, q, file)
  {
    var d := Lookup(fs, location).value;
    var ps := PathsOf(Discover(fs, location, file));
    if q in ps {
      var i :| 0 <= i < |ps| && ps[i] == q;
      DiscoverSound(fs, location, file);
      assert Discover(fs, location, file)[i] in Discover(fs, location, file);
    }
    if StrictlyBelow(q, location) && ChainHolds(fs, location, q, file) {
      var s := q[|location|..];
      assert q == location + s;
      LookupWellFormed(fs, location);
      forall k | 1 <= k <= |s| ensures HasFile(d, s[..k], file) {
        assert q[..|location| + k] == location + s[..k];
        LookupConcat(fs, location, s[..k]);
      }
      BelowComplete(d, location, file, s);
    }
  }

  lemma BelowPathsShape(d: Dir, location: Path, file: string, n: nat)
    requires WellFormed(d) && n <= |d.subdirs|
    ensures forall y :: y in PathsOf(Below(d, location, file, n)) ==>
      StrictlyBelow(y, location) && y[|location|] in NamesOf(d.subdirs[..n])
  {
    var xs := Below(d, location, file, n);
    BelowShape(d, location, file, n);
    forall y | y in PathsOf(xs)
      ensures StrictlyBelow(y, location) && y[|location|] in NamesOf(d.subdirs[..n])
    {
      var i :| 0 <= i < |xs| && PathsOf(xs)[i] == y;
      assert xs[i] in xs;
    }
  }

  /** A subtree lists no path twice, and all of them extend its root's path. */
  lemma {:induction false} SubtreeDistinct(c: Dir, q: Path, file: string)
    requires WellFormed(c)
    ensures Distinct(PathsOf(Subtree(c, q, file)))
    ensures forall y :: y in PathsOf(Subtree(c, q, file)) ==> |y| >= |q| && y[..|q|] == q
    decreases c, |c.subdirs| + 1
  {
    var rest := Below(c, q, file, |c.subdirs|);
    BelowDistinct(c, q, file, |c.subdirs|);
    BelowPathsShape(c, q, file, |c.subdirs|);
    PathsOfConcat([Found(q, c)], rest);
    DistinctConcat([q], PathsOf(rest));
  }

  /** No directory is discovered twice. */
  lemma {:induction false} BelowDistinct(d: Dir, location: Path, file: string, n: nat)
    requires WellFormed(d) && n <= |d.subdirs|
    ensures Distinct(PathsOf(Below(d, location, file, n)))
    decreases d, n, 1
  {
    if n > 0 {
      var e := d.subdirs[n - 1];
      var prefix := Below(d, location, file, n - 1);
      if file in e.dir.files {
        BelowDistinctStep(d, location, file, n);
      } else {
        assert Below(d, location, file, n) == prefix by {
          assert prefix + [] == prefix;
        }
        BelowDistinct(d, location, file, n - 1);
      }
    }
  }

  lemma BelowDistinctStep(d: Dir, location: Path, file: string, n: nat)
    requires WellFormed(d) && 0 < n <= |d.subdirs| && file in d.subdirs[n - 1].dir.files
    ensures Distinct(PathsOf(Below(d, location, file, n)))
    decreases d, n, 0
  {
    BelowDistinct(d, location, file, n - 1);
    var e := d.subdirs[n - 1];
    var q := location + [e.name];
    var prefix, sub := PathsOf(Below(d, location, file, n - 1)), PathsOf(Subtree(e.dir, q, file));
    var earlier := NamesOf(d.subdirs[..n - 1]);
    assert forall y :: y in prefix ==> StrictlyBelow(y, location) && y[|location|] in earlier by {
      BelowPathsShape(d, location, file, n - 1);
    }
    assert e in d.subdirs;
    SubtreeDistinct(e.dir, q, file);
    assert e.name !in earlier by {
      forall k | 0 <= k < n - 1 ensures earlier[k] != e.name {
        assert earlier[k] == d.subdirs[k].name;
      }
    }
    SubtreeApart(prefix, sub, location, earlier, e.name);
    DistinctConcat(prefix, sub);
    assert Below(d, location, file, n) == Below(d, location, file, n - 1) + Subtree(e.dir, q, file);
    PathsOfConcat(Below(d, location, file, n - 1), Subtree(e.dir, q, file));
  }

  /** The step of `BelowDistinct`: the subtree of an entry shares no path with the
      subtrees of the entries before it, because its paths pass through its own name. */
  lemma SubtreeApart(prefix: seq<Path>, sub: seq<Path>, location: Path, earlier: seq<string>, name: string)
    requires forall y :: y in prefix ==> StrictlyBelow(y, location) && y[|location|] in earlier
    requires name !in earlier
    requires forall y :: y in sub ==> |y| >= |location + [name]| && y[..|location + [name]|] == location + [name]
    ensures forall y :: y in prefix ==> y !in sub
  {
    var q := location + [name];
    forall y | y in prefix ensures y !in sub {
      assert y[|location|] != name;
      forall z | z in sub ensures z != y {
        assert z[..|q|] == q;
        assert z[|location|] == q[|location|] == name;
      }
    }
  }

  lemma DiscoverDistinct(fs: Dir, location: Path, file: string)
    requires WellFormed(fs) && Lookup(fs, location).Some?
    ensures Distinct(PathsOf(Discover(fs, location, file)))
  {
    LookupWellFormed(fs, location);
    var d := Lookup(fs, location).value;
    BelowDistinct(d, location, file, |d.subdirs|);
  }

  /** Every element of `xs` is followed immediately by the rest of its own subtree. */
  ghost predicate PreOrdered(xs: seq<Found>, file: string) {
    forall i :: 0 <= i < |xs| ==>
      && i + |Subtree(xs[i].dir, xs[i].path, file)| <= |xs|
      && xs[i .. i + |Subtree(xs[i].dir, xs[i].path, file)|] == Subtree(xs[i].dir, xs[i].path, file)
  }

  lemma PreOrderedConcat(a: seq<Found>, b: seq<Found>, file: string)
    requires PreOrdered(a, file) && PreOrdered(b, file)
    ensures PreOrdered(a + b, file)
  {
    var ab := a + b;
    forall i | 0 <= i < |ab|
      ensures && i + |Subtree(ab[i].dir, ab[i].path, file)| <= |ab|
              && ab[i .. i + |Subtree(ab[i].dir, ab[i].path, file)|] == Subtree(ab[i].dir, ab[i].path, file)
    {
      var len := |Subtree(ab[i].dir, ab[i].path, file)|;
      if i < |a| {
        assert ab[i] == a[i];
        assert ab[i .. i + len] == a[i .. i + len];
      } else {
        assert ab[i] == b[i - |a|];
        assert ab[i .. i + len] == b[i - |a| .. i - |a| + len];
      }
    }
  }

  lemma PreOrderedCons(h: Found, rest: seq<Found>, file: string)
    requires PreOrdered(rest, file)
    requires Subtree(h.dir, h.path, file) == [h] + rest
    ensures PreOrdered([h] + rest, file)
  {
    var xs := [h] + rest;
    forall i | 0 <= i < |xs|
      ensures && i + |Subtree(xs[i].dir, xs[i].path, file)| <= |xs|
              && xs[i .. i + |Subtree(xs[i].dir, xs[i].path, file)|] == Subtree(xs[i].dir, xs[i].path, file)
    {
      if i > 0 {
        var len := |Subtree(xs[i].dir, xs[i].path, file)|;
        assert xs[i] == rest[i - 1];
        assert xs[i .. i + len] == rest[i - 1 .. i - 1 + len];
      }
    }
  }

  /** Pre-order, relative form: every listed directory is followed immediately by the
      directories discovered below it. */
  lemma {:induction false} BelowPreOrder(d: Dir, location: Path, file: string, n: nat)
    requires n <= |d.subdirs|
    ensures PreOrdered(Below(d, location, file, n), file)
    decreases d, n
  {
    if n > 0 {
      var e := d.subdirs[n - 1];
      var q := location + [e.name];
      var prefix := Below(d, location, file, n - 1);
      BelowPreOrder(d, location, file, n - 1);
      if file in e.dir.files {
        assert e in d.subdirs;
        BelowPreOrder(e.dir, q, file, |e.dir.subdirs|);
        PreOrderedCons(Found(q, e.dir), Below(e.dir, q, file, |e.dir.subdirs|), file);
        PreOrderedConcat(prefix, Subtree(e.dir, q, file), file);
      } else {
        assert Below(d, location, file, n) == prefix by {
          assert prefix + [] == prefix;
        }
      }
    }
  }

  /** Pre-order: each discovered directory is followed immediately by exactly the
      directories discovered below it. */
  lemma DiscoverPreOrder(fs: Dir, location: Path, file: string)
    requires WellFormed(fs) && Lookup(fs, location).Some?
    ensures forall i :: 0 <= i < |Discover(fs, location, file)| ==>
      var x := Discover(fs, location, file)[i];
      && Lookup(fs, x.path).Some?
      && i + 1 + |Discover(fs, x.path, file)| <= |Discover(fs, location, file)|
      && Discover(fs, location, file)[i + 1 .. i + 1 + |Discover(fs, x.path, file)|] == Discover(fs, x.path, file)
  {
    var d := Lookup(fs, location).value;
    var all := Discover(fs, location, file);
    assert PreOrdered(all, file) by {
      BelowPreOrder(d, location, file, |d.subdirs|);
    }
    assert forall x :: x in all ==> Lookup(fs, x.path) == Some(x.dir) by {
      DiscoverSound(fs, location, file);
    }
    forall i | 0 <= i < |all|
      ensures
        var x := all[i];
        && Lookup(fs, x.path).Some?
        && i + 1 + |Discover(fs, x.path, file)| <= |all|
        && all[i + 1 .. i + 1 + |Discover(fs, x.path, file)|] == Discover(fs, x.path, file)
    {
      assert all[i] in all;
      DiscoverPreOrderAt(fs, all, file, i);
    }
  }

  lemma DiscoverPreOrderAt(fs: Dir, all: seq<Found>, file: string, i: nat)
    requires PreOrdered(all, file) && i < |all| && Lookup(fs, all[i].path) == Some(all[i].dir)
    ensures i + 1 + |Discover(fs, all[i].path, file)| <= |all|
    ensures all[i + 1 .. i + 1 + |Discover(fs, all[i].path, file)|] == Discover(fs, all[i].path, file)
  {
    var x := all[i];
    var sub := Subtree(x.dir, x.path, file);
    assert Discover(fs, x.path, file) == sub[1..];
    assert all[i .. i + |sub|] == sub;
    assert all[i + 1 .. i + |sub|] == sub[1..];
  }

  // ----- The listing loop of the readers, one entry at a time -----

  /** The unit directories strictly below `location`, in pre-order. */
  ghost function Nested(fs: Dir, location: Path, file: string): seq<Path>
    requires Lookup(fs, location).Some?
  {
    PathsOf(Discover(fs, location, file))
  }

  /** The unit directories the first `n` sub-directories of `location` lead to. */
  ghost function Listed(fs: Dir, location: Path, file: string, n: nat): seq<Path>
    requires Lookup(fs, location).Some? && n <= |Lookup(fs, location).value.subdirs|
  {
    PathsOf(Below(Lookup(fs, location).value, location, file, n))
  }

  /** The unit directories sub-directory `i` of `location` leads to: itself and those
      below it when it holds the unit file, none otherwise. */
  ghost function EntryUnits(fs: Dir, location: Path, file: string, i: nat): seq<Path>
    requires Lookup(fs, location).Some? && i < |Lookup(fs, location).value.subdirs|
  {
    var current := location + [Lookup(fs, location).value.subdirs[i].name];
    if HasFile(fs, current, file) then [current] + Nested(fs, current, file) else []
  }

  /** One step of the listing loop adds what sub-directory `i` leads to; `rest` is what
      the entries after it add. */
  lemma ListedStep(fs: Dir, location: Path, file: string, i: nat) returns (rest: seq<Path>)
    requires WellFormed(fs) && Lookup(fs, location).Some?
    requires i < |Lookup(fs, location).value.subdirs|
    ensures Listed(fs, location, file, i + 1) == Listed(fs, location, file, i) + EntryUnits(fs, location, file, i)
    ensures Nested(fs, location, file) == Listed(fs, location, file, i) + EntryUnits(fs, location, file, i) + rest
  {
    var d := Lookup(fs, location).value;
    var e := d.subdirs[i];
    var current := location + [e.name];
    LookupChild(fs, location, i);
    PathsOfConcat(Below(d, location, file, i), if file in e.dir.files then Subtree(e.dir, current, file) else []);
    if HasFile(fs, current, file) {
      PathsOfConcat([Found(current, e.dir)], Discover(fs, current, file));
    }
    var more := BelowRest(d, location, file, i + 1);
    PathsOfConcat(Below(d, location, file, i + 1), more);
    rest := PathsOf(more);
  }

  /** What `Below` adds to its first `n` entries' discoveries by going on to all of them. */
  lemma {:induction false} BelowRest(d: Dir, location: Path, file: string, n: nat) returns (rest: seq<Found>)
    requires n <= |d.subdirs|
    ensures Below(d, location, file, |d.subdirs|) == Below(d, location, file, n) + rest
    decreases |d.subdirs| - n
  {
    if n == |d.subdirs| {
      rest := [];
    } else {
      var more := BelowRest(d, location, file, n + 1);
      var e := d.subdirs[n];
      var step := if file in e.dir.files then Subtree(e.dir, location + [e.name], file) else [];
      assert Below(d, location, file, n + 1) == Below(d, location, file, n) + step;
      rest := step + more;
    }
  }

  // ----- Upward walk to the uppermost unit directory -----

  /** The walk up from `start` stops: `start` or one of its ancestors lacks the file.
      (When every ancestor holds it, including "/", the walk goes on forever.) */
  ghost predicate WalkUpStops(fs: Dir, start: Path, file: string) {
    exists k :: 0 <= k <= |start| && !HasFile(fs, start[..k], file)
  }

  /** The top of the unbroken run of directories holding `file` that `start` heads
      down from, or `start` when it holds none. */
  function Top(fs: Dir, start: Path, file: string): (top: Path)
    ensures |top| <= |start| && top == start[..|top|]
    ensures HasFile(fs, start, file) ==> HasFile(fs, top, file) && (top != [] ==> !HasFile(fs, Parent(top), file))
    decreases |start|
  {
    if start != [] && HasFile(fs, start, file) && HasFile(fs, Parent(start), file)
    then Top(fs, Parent(start), file)
    else start
  }

  /** The loop at the top of `read_all_pipes` and `read_all_bags`: move to the parent
      while the current directory holds the unit file, remembering the last one that did.
      The result is the top of the unbroken run of unit directories that `start` is in, or
      `start` itself when it holds no unit file. */
  method Uppermost(fs: Dir, start: Path, file: string) returns (uppermost: Path)
    requires WalkUpStops(fs, start, file)
    ensures !HasFile(fs, start, file) ==> uppermost == start
    ensures HasFile(fs, start, file) ==>
      && 0 < |uppermost| <= |start| && uppermost == start[..|uppermost|]
      && (forall k :: |uppermost| <= k <= |start| ==> HasFile(fs, start[..k], file))
      && !HasFile(fs, Parent(uppermost), file)
    ensures uppermost == Top(fs, start, file)
  {
    uppermost := start;
    var location := start;
    while HasFile(fs, location, file)
      invariant |location| <= |start| && location == start[..|location|]
      invariant exists k :: 0 <= k <= |location| && !HasFile(fs, start[..k], file)
      invariant forall k :: |location| < k <= |start| ==> HasFile(fs, start[..k], file)
      invariant location == start ==> uppermost == start
      invariant location != start ==> |uppermost| == |location| + 1 && uppermost == start[..|uppermost|]
      invariant location != start ==> Top(fs, start, file) == Top(fs, uppermost, file)
      decreases |location|
    {
      if location != start {
        assert Parent(uppermost) == location && uppermost != [];
        assert HasFile(fs, start[..|uppermost|], file);
        assert Top(fs, uppermost, file) == Top(fs, location, file);
      }
      uppermost := location;
      location := Parent(location);
      assert start[..|location| + 1] == uppermost;
    }
    if location != start {
      assert Parent(uppermost) == location;
    }
  }
}
