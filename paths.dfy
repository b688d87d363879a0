/** Directory paths as sequences of segments, their rendering as strings (the
    `os.path.join` chains the readers build), and the base name the units are named by
    (`os.path.basename(os.path.normpath(location))`). */
module Paths {

  /** A directory, as the segments from the filesystem root: `[]` is "/". */
  type Path = seq<string>

  /** A name a directory listing can return. */
  predicate ValidSegment(s: string) {
    s != "" && '/' !in s && s != "." && s != ".."
  }

  predicate ValidPath(p: Path) {
    forall i :: 0 <= i < |p| ==> ValidSegment(p[i])
  }

  /** `os.path.join(dir, entry)` with POSIX separators. */
  function Join(dir: string, entry: string): string {
    if entry != "" && entry[0] == '/' then entry
    else if dir == "" || dir[|dir| - 1] == '/' then dir + entry
    else dir + "/" + entry
  }

  /** The string a path is known by: "/" for the root, then one `Join` per segment. */
  function Render(p: Path): string {
    if p == [] then "/" else Join(Render(p[..|p| - 1]), p[|p| - 1])
  }

  /** `os.path.normpath`, as far as it matters to a base name: trailing separators go. */
  function StripTrailingSeparators(s: string): (r: string)
    ensures r == [] || r[|r| - 1] != '/'
  {
    if s != "" && s[|s| - 1] == '/' then StripTrailingSeparators(s[..|s| - 1]) else s
  }

  /** `os.path.basename`: what follows the last separator. */
  function LastSegment(s: string): (r: string)
    ensures '/' !in r
  {
    if s == "" || s[|s| - 1] == '/' then "" else LastSegment(s[..|s| - 1]) + [s[|s| - 1]]
  }

  /** `os.path.basename(os.path.normpath(location))`: the name of a unit at `location`. */
  function BaseName(location: string): (name: string)
    ensures '/' !in name
  {
    LastSegment(StripTrailingSeparators(location))
  }

  /** A trailing separator does not change the name. */
  lemma BaseNameIgnoresTrailingSeparator(location: string)
    ensures BaseName(location + "/") == BaseName(location)
  {
    assert (location + "/")[..|location|] == location;
  }

  lemma {:induction false} LastSegmentAfterSeparator(prefix: string, segment: string)
    requires prefix == "" || prefix[|prefix| - 1] == '/'
    requires '/' !in segment
    ensures LastSegment(prefix + segment) == segment
  {
    if segment != "" {
      var s := segment[..|segment| - 1];
      assert (prefix + segment)[..|prefix + segment| - 1] == prefix + s;
      LastSegmentAfterSeparator(prefix, s);
      assert segment == s + [segment[|segment| - 1]];
    }
  }

  /** Joining an entry onto any directory names the result after the entry. */
  lemma BaseNameOfJoin(dir: string, entry: string)
    requires ValidSegment(entry)
    ensures BaseName(Join(dir, entry)) == entry
  {
    var j := Join(dir, entry);
    var prefix := if dir == "" || dir[|dir| - 1] == '/' then dir else dir + "/";
    assert j == prefix + entry;
    assert j[|j| - 1] == entry[|entry| - 1] && entry[|entry| - 1] != '/' by {
      assert entry[|entry| - 1] in entry;
    }
    assert StripTrailingSeparators(j) == j;
    LastSegmentAfterSeparator(prefix, entry);
  }

  /** The name of a rendered path is its last segment: a unit is named after its directory. */
  lemma BaseNameOfRender(p: Path)
    requires p != [] && ValidPath(p)
    ensures BaseName(Render(p)) == p[|p| - 1]
  {
    BaseNameOfJoin(Render(p[..|p| - 1]), p[|p| - 1]);
  }

  /** Rendering a child path is joining its name onto the parent's rendering. */
  lemma RenderChild(p: Path, name: string)
    ensures Render(p + [name]) == Join(Render(p), name)
  {
    assert (p + [name])[..|p|] == p;
  }
}
