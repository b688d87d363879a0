/** The theory behind `Pipe.flat_dependencies`: the dependency graph, the walk that the
    inner `visit` performs, the levels it records, and the stable sort by level. */
module Flattening {
  import opened Wrappers
  import opened Dicts

  /** A dependency graph: for each node, the values of its `dependencies` dict in key
      order; `None` is an entry that linking left unresolved. */
  type Graph<N> = map<N, seq<Option<N>>>

  /** `rank` witnesses that `g` is closed and acyclic: every resolved edge leads to a node
      of `g` of strictly smaller rank. */
  ghost predicate Ranked<N>(g: Graph<N>, rank: map<N, nat>) {
    && (forall u :: u in g ==> u in rank)
    && (forall u, i :: u in g && 0 <= i < |g[u]| && g[u][i].Some? ==>
          g[u][i].value in g && g[u][i].value in rank && rank[g[u][i].value] < rank[u])
  }

  ghost predicate Edge<N>(g: Graph<N>, u: N, v: N) {
    u in g && Some(v) in g[u]
  }

  /** A sequence of nodes each of which depends on the next. */
  ghost predicate IsChain<N>(g: Graph<N>, path: seq<N>) {
    |path| >= 1 && forall i :: 0 <= i < |path| - 1 ==> Edge(g, path[i], path[i + 1])
  }

  /** A dependency path of at least one edge. */
  ghost predicate IsPath<N>(g: Graph<N>, path: seq<N>) {
    IsChain(g, path) && |path| >= 2
  }

  /** Every entry reachable from `p`, `p`'s own included, is resolved. */
  ghost predicate Linked<N>(g: Graph<N>, rank: map<N, nat>, p: N)
    requires Ranked(g, rank) && p in g
    decreases rank[p]
  {
    forall i :: 0 <= i < |g[p]| ==> g[p][i].Some? && Linked(g, rank, g[p][i].value)
  }

  // ----- The walk of `visit` -----

  /** Every (node, level) pair `visit(p, visited, level)` assigns, in order: each
      dependency at `level`, followed by the walk below it at `level + 1`. */
  ghost function Walk<N>(g: Graph<N>, rank: map<N, nat>, p: N, level: nat): seq<(N, nat)>
    requires Ranked(g, rank) && p in g && Linked(g, rank, p)
    decreases rank[p], |g[p]| + 1
  {
    WalkDeps(g, rank, p, level, |g[p]|)
  }

  /** The first `n` entries of `p` are resolved and linked all the way down. */
  ghost predicate LinkedUpTo<N>(g: Graph<N>, rank: map<N, nat>, p: N, n: nat)
    requires Ranked(g, rank) && p in g && n <= |g[p]|
  {
    forall i :: 0 <= i < n ==> g[p][i].Some? && Linked(g, rank, g[p][i].value)
  }

  /** Resolving entries one at a time: the entries so far extend by one exactly when the
      next one is resolved and linked, and `p` is linked when all of them are. */
  lemma LinkedStep<N>(g: Graph<N>, rank: map<N, nat>, p: N, n: nat)
    requires Ranked(g, rank) && p in g && n <= |g[p]| && LinkedUpTo(g, rank, p, n)
    ensures n == |g[p]| ==> Linked(g, rank, p)
    ensures n < |g[p]| ==>
      (LinkedUpTo(g, rank, p, n + 1) <==> g[p][n].Some? && Linked(g, rank, g[p][n].value))
    ensures n < |g[p]| && !(g[p][n].Some? && Linked(g, rank, g[p][n].value)) ==> !Linked(g, rank, p)
  {
  }

  /** The part of the walk from `p` contributed by its first `n` dependencies. */
  ghost function WalkDeps<N>(g: Graph<N>, rank: map<N, nat>, p: N, level: nat, n: nat): seq<(N, nat)>
    requires Ranked(g, rank) && p in g && n <= |g[p]| && LinkedUpTo(g, rank, p, n)
    decreases rank[p], n
  {
    if n == 0 then []
    else
      var d := g[p][n - 1].value;
      WalkDeps(g, rank, p, level, n - 1) + [(d, level)] + Walk(g, rank, d, level + 1)
  }

  function Nodes<N>(w: seq<(N, nat)>): (ns: seq<N>)
    ensures |ns| == |w| && forall i :: 0 <= i < |w| ==> ns[i] == w[i].0
  {
    if w == [] then [] else Nodes(w[..|w| - 1]) + [w[|w| - 1].0]
  }

  function Max(a: nat, b: nat): nat {
    if a >= b then a else b
  }

  /** `visited[dep] = max(level, visited.get(dep, level))` */
  function Step<N>(visited: Dict<N, nat>, x: N, level: nat): (v: Dict<N, nat>)
    ensures x in v.items && v.items[x] >= level
    ensures x in visited.items ==> v.items[x] >= visited.items[x]
    ensures v.items[x] == level || (x in visited.items && v.items[x] == visited.items[x])
    ensures visited.Valid() ==> v.Valid()
    ensures visited.Valid() ==> v.keys == if x in visited.items then visited.keys else visited.keys + [x]
  {
    assert visited.Valid() ==> Dedup(visited.keys + [x]) == if x in visited.items then visited.keys else visited.keys + [x] by {
      if visited.Valid() { DedupOfDistinct(visited.keys); DedupSnoc(visited.keys, x); }
    }
    visited.Put(x, Max(level, visited.Get(x, level)))
  }

  /** The `visited` dict after the assignments of `w`, in order. */
  ghost function Record<N>(visited: Dict<N, nat>, w: seq<(N, nat)>): (v: Dict<N, nat>)
    ensures visited.Valid() ==> v.Valid()
  {
    if w == [] then visited
    else Step(Record(visited, w[..|w| - 1]), w[|w| - 1].0, w[|w| - 1].1)
  }

  /** The levels `visit(p, {})` returns. */
  ghost function Levels<N>(g: Graph<N>, rank: map<N, nat>, p: N): (v: Dict<N, nat>)
    requires Ranked(g, rank) && p in g && Linked(g, rank, p)
    ensures v.Valid()
  {
    Record(Empty(), Walk(g, rank, p, 0))
  }

  /** The list `flat_dependencies` returns. */
  ghost function Flatten<N>(g: Graph<N>, rank: map<N, nat>, p: N): seq<N>
    requires Ranked(g, rank) && p in g && Linked(g, rank, p)
  {
    var lv := Levels(g, rank, p);
    SortByLevel(lv.keys, lv.items)
  }

  // ----- When `visit` fails -----

  /** If the walk from `p` would meet an unresolved entry, a dependency chain from `p`
      leads to a node holding one ... */
  lemma {:induction false} UnresolvedReached<N>(g: Graph<N>, rank: map<N, nat>, p: N) returns (path: seq<N>)
    requires Ranked(g, rank) && p in g && !Linked(g, rank, p)
    ensures IsChain(g, path) && path[0] == p
    ensures path[|path| - 1] in g && None in g[path[|path| - 1]]
    decreases rank[p]
  {
    var i :| 0 <= i < |g[p]| && !(g[p][i].Some? && Linked(g, rank, g[p][i].value));
    if g[p][i].None? {
      assert g[p][i] in g[p];
      path := [p];
    } else {
      var d := g[p][i].value;
      assert Edge(g, p, d) by { assert g[p][i] in g[p]; }
      var rest := UnresolvedReached(g, rank, d);
      path := [p] + rest;
      assert path[1..] == rest;
    }
  }

  /** ... and a chain from `p` to a node holding an unresolved entry makes the walk fail. */
  lemma {:induction false} ReachedUnresolved<N>(g: Graph<N>, rank: map<N, nat>, path: seq<N>)
    requires Ranked(g, rank) && IsChain(g, path) && path[0] in g
    requires path[|path| - 1] in g && None in g[path[|path| - 1]]
    ensures !Linked(g, rank, path[0])
    decreases |path|
  {
    var p := path[0];
    if |path| == 1 {
      var i :| 0 <= i < |g[p]| && g[p][i] == None;
    } else {
      assert Edge(g, p, path[1]);
      var i :| 0 <= i < |g[p]| && g[p][i] == Some(path[1]);
      assert IsChain(g, path[1..]);
      ReachedUnresolved(g, rank, path[1..]);
    }
  }

  // ----- What the recorded levels are -----

  lemma {:induction false} RecordConcat<N>(visited: Dict<N, nat>, a: seq<(N, nat)>, b: seq<(N, nat)>)
    ensures Record(visited, a + b) == Record(Record(visited, a), b)
    decreases |b|
  {
    if b == [] {
      assert a + b == a;
    } else {
      assert (a + b)[..|a + b| - 1] == a + b[..|b| - 1];
      RecordConcat(visited, a, b[..|b| - 1]);
    }
  }

  /** The keys of the recorded dict are the walked nodes, first occurrence first. */
  lemma {:induction false} RecordKeys<N>(w: seq<(N, nat)>)
    ensures Record(Empty(), w).keys == Dedup(Nodes(w))
    decreases |w|
  {
    if w != [] {
      var w', x := w[..|w| - 1], w[|w| - 1].0;
      RecordKeys(w');
      var a := Nodes(w');
      assert Nodes(w) == a + [x];
      DedupSnoc(Dedup(a), x);
      DedupOfDistinct(Dedup(a));
      DedupSnoc(a, x);
    }
  }

  /** A step never lowers a recorded level. */
  lemma StepRaises<N>(v: Dict<N, nat>, x: N, l: nat)
    ensures x in Step(v, x, l).items && Step(v, x, l).items[x] >= l
    ensures forall y :: y in v.items ==> y in Step(v, x, l).items && Step(v, x, l).items[y] >= v.items[y]
  {
  }

  /** Every level `w` assigns a node is at most its level in `m`. */
  ghost predicate Covers<N>(m: map<N, nat>, w: seq<(N, nat)>) {
    forall j :: 0 <= j < |w| ==> w[j].0 in m && m[w[j].0] >= w[j].1
  }

  /** Every level the walk assigns a node is at most its recorded level ... */
  lemma {:induction false} RecordBounds<N>(w: seq<(N, nat)>)
    ensures Covers(Record(Empty(), w).items, w)
    decreases |w|
  {
    if w != [] {
      var w' := w[..|w| - 1];
      RecordBounds(w');
      var v := Record(Empty(), w');
      var x, l := w[|w| - 1].0, w[|w| - 1].1;
      var m := Step(v, x, l).items;
      StepRaises(v, x, l);
      forall j | 0 <= j < |w| ensures w[j].0 in m && m[w[j].0] >= w[j].1 {
        if j < |w'| {
          assert w[j] == w'[j];
          assert w'[j].0 in v.items && v.items[w'[j].0] >= w'[j].1;
        } else {
          assert j == |w| - 1;
        }
      }
    }
  }

  /** ... and the recorded level is one the walk assigns it. */
  lemma {:induction false} RecordAttained<N>(w: seq<(N, nat)>)
    ensures forall x :: x in Record(Empty(), w).items ==> (x, Record(Empty(), w).items[x]) in w
    decreases |w|
  {
    if w != [] {
      var w' := w[..|w| - 1];
      RecordAttained(w');
      var v, v1 := Record(Empty(), w'), Record(Empty(), w);
      var x, l := w[|w| - 1].0, w[|w| - 1].1;
      assert v1.items == v.items[x := Max(l, v.Get(x, l))];
      assert w == w' + [(x, l)];
      forall y | y in v1.items ensures (y, v1.items[y]) in w {
        if y != x || (x in v.items && v.items[x] >= l) {
          assert (y, v.items[y]) in w';
        }
      }
    }
  }

  // ----- Walks and dependency paths -----

  lemma {:induction false} ChainsEndBelow<N>(g: Graph<N>, rank: map<N, nat>, path: seq<N>)
    requires Ranked(g, rank) && IsChain(g, path) && path[0] in g
    ensures path[|path| - 1] in g && rank[path[|path| - 1]] <= rank[path[0]]
    ensures |path| >= 2 ==> rank[path[|path| - 1]] < rank[path[0]]
    decreases |path|
  {
    if |path| >= 2 {
      var i :| 0 <= i < |g[path[0]]| && g[path[0]][i] == Some(path[1]);
      ChainsEndBelow(g, rank, path[1..]);
    }
  }

  lemma {:induction false} WalkDepsMember<N>(g: Graph<N>, rank: map<N, nat>, p: N, level: nat, n: nat, e: (N, nat))
    returns (i: nat)
    requires Ranked(g, rank) && p in g && Linked(g, rank, p) && n <= |g[p]|
    requires e in WalkDeps(g, rank, p, level, n)
    ensures i < n && g[p][i].Some?
    ensures e == (g[p][i].value, level) || e in Walk(g, rank, g[p][i].value, level + 1)
    decreases n
  {
    var d := g[p][n - 1].value;
    if e in WalkDeps(g, rank, p, level, n - 1) {
      i := WalkDepsMember(g, rank, p, level, n - 1, e);
    } else {
      i := n - 1;
    }
  }

  lemma {:induction false} WalkDepsContains<N>(g: Graph<N>, rank: map<N, nat>, p: N, level: nat, n: nat, i: nat)
    requires Ranked(g, rank) && p in g && Linked(g, rank, p) && i < n <= |g[p]|
    ensures (g[p][i].value, level) in WalkDeps(g, rank, p, level, n)
    ensures forall e :: e in Walk(g, rank, g[p][i].value, level + 1) ==> e in WalkDeps(g, rank, p, level, n)
    decreases n
  {
    if i < n - 1 {
      WalkDepsContains(g, rank, p, level, n - 1, i);
    }
  }

  /** Whatever the walk assigns lies at the end of a dependency path from the start,
      one edge longer than the level's distance from the starting level. */
  lemma {:induction false} WalkToPath<N>(g: Graph<N>, rank: map<N, nat>, p: N, level: nat, e: (N, nat))
    returns (path: seq<N>)
    requires Ranked(g, rank) && p in g && Linked(g, rank, p)
    requires e in Walk(g, rank, p, level)
    ensures IsPath(g, path) && path[0] == p && path[|path| - 1] == e.0
    ensures e.1 >= level && |path| == e.1 - level + 2
    decreases rank[p]
  {
    var i := WalkDepsMember(g, rank, p, level, |g[p]|, e);
    var d := g[p][i].value;
    assert Edge(g, p, d) by { assert g[p][i] in g[p]; }
    if e == (d, level) {
      path := [p, d];
    } else {
      var rest := WalkToPath(g, rank, d, level + 1, e);
      path := [p] + rest;
      assert path[1..] == rest;
    }
  }

  /** The end of every dependency path from the start is walked at the path's length. */
  lemma {:induction false} PathToWalk<N>(g: Graph<N>, rank: map<N, nat>, path: seq<N>, level: nat)
    requires Ranked(g, rank) && IsPath(g, path) && path[0] in g && Linked(g, rank, path[0])
    ensures (path[|path| - 1], level + |path| - 2) in Walk(g, rank, path[0], level)
    decreases |path|
  {
    var p, d := path[0], path[1];
    assert Edge(g, p, d);
    var i :| 0 <= i < |g[p]| && g[p][i] == Some(d);
    WalkDepsContains(g, rank, p, level, |g[p]|, i);
    if |path| > 2 {
      assert IsPath(g, path[1..]);
      PathToWalk(g, rank, path[1..], level + 1);
    }
  }

  // ----- sorted(..., key=level, reverse=True) -----

  ghost predicate Sorted<N>(s: seq<N>, lv: map<N, nat>)
    requires forall x :: x in s ==> x in lv
  {
    forall i, j :: 0 <= i < j < |s| ==> lv[s[i]] >= lv[s[j]]
  }

  /** The elements of `s` at level `l`, in order. */
  function AtLevel<N>(s: seq<N>, lv: map<N, nat>, l: nat): seq<N>
    requires forall x :: x in s ==> x in lv
  {
    if s == [] then []
    else AtLevel(s[..|s| - 1], lv, l) + (if lv[s[|s| - 1]] == l then [s[|s| - 1]] else [])
  }

  lemma {:induction false} AtLevelConcat<N>(a: seq<N>, b: seq<N>, lv: map<N, nat>, l: nat)
    requires forall x :: x in a ==> x in lv
    requires forall x :: x in b ==> x in lv
    ensures AtLevel(a + b, lv, l) == AtLevel(a, lv, l) + AtLevel(b, lv, l)
    decreases |b|
  {
    if b == [] {
      assert a + b == a;
    } else {
      var b' := b[..|b| - 1];
      assert (a + b)[..|a + b| - 1] == a + b';
      AtLevelConcat(a, b', lv, l);
    }
  }

  /** Put `x` after every element whose level is at least its own. */
  function InsertByLevel<N>(t: seq<N>, x: N, lv: map<N, nat>): (r: seq<N>)
    requires forall y :: y in t ==> y in lv
    requires x in lv
    ensures multiset(r) == multiset(t) + multiset{x}
    ensures forall y :: y in r ==> y in t || y == x
    ensures x in r && forall y :: y in t ==> y in r
    ensures forall y :: y in r ==> y in lv
  {
    if t == [] then [x]
    else
      var t', y := t[..|t| - 1], t[|t| - 1];
      assert t == t' + [y];
      if lv[y] >= lv[x] then t + [x]
      else
        var r' := InsertByLevel(t', x, lv);
        assert y in multiset(t);
        r' + [y]
  }

  /** In a sorted sequence the last element is at most as high as any before it. */
  lemma SortedLast<N>(t: seq<N>, lv: map<N, nat>, z: N)
    requires forall y :: y in t ==> y in lv
    requires t != [] && Sorted(t, lv) && z in t[..|t| - 1]
    ensures lv[z] >= lv[t[|t| - 1]]
  {
    var k :| 0 <= k < |t| - 1 && t[..|t| - 1][k] == z;
    assert t[k] == z;
  }

  /** A sorted sequence stays sorted when an element no higher than all of it is appended. */
  lemma SortedSnoc<N>(r: seq<N>, y: N, lv: map<N, nat>)
    requires forall z :: z in r ==> z in lv
    requires y in lv && Sorted(r, lv)
    requires forall z :: z in r ==> lv[z] >= lv[y]
    ensures Sorted(r + [y], lv)
  {
    forall i, j | 0 <= i < j < |r + [y]| ensures lv[(r + [y])[i]] >= lv[(r + [y])[j]] {
      assert (r + [y])[i] == r[i];
      if j < |r| {
        assert (r + [y])[j] == r[j];
      } else {
        assert r[i] in r;
      }
    }
  }

  /** Taking off the last element keeps a sequence sorted. */
  lemma SortedPrefix<N>(t: seq<N>, lv: map<N, nat>)
    requires forall y :: y in t ==> y in lv
    requires t != [] && Sorted(t, lv)
    ensures Sorted(t[..|t| - 1], lv)
  {
    var s := t[..|t| - 1];
    forall i, j | 0 <= i < j < |s| ensures lv[s[i]] >= lv[s[j]] {
      assert s[i] == t[i] && s[j] == t[j];
    }
  }

  lemma {:induction false} InsertSorted<N>(t: seq<N>, x: N, lv: map<N, nat>)
    requires forall y :: y in t ==> y in lv
    requires x in lv && Sorted(t, lv)
    ensures Sorted(InsertByLevel(t, x, lv), lv)
    decreases |t|
  {
    if t == [] {
    } else {
      var t', y := t[..|t| - 1], t[|t| - 1];
      if lv[y] >= lv[x] {
        forall z | z in t ensures lv[z] >= lv[x] {
          if z != y {
            assert z in t' by { assert t == t' + [y]; }
            SortedLast(t, lv, z);
          }
        }
        SortedSnoc(t, x, lv);
      } else {
        var r' := InsertByLevel(t', x, lv);
        SortedPrefix(t, lv);
        InsertSorted(t', x, lv);
        forall z | z in r' ensures lv[z] >= lv[y] {
          if z != x {
            SortedLast(t, lv, z);
          }
        }
        SortedSnoc(r', y, lv);
      }
    }
  }

  /** Inserting where the last element is at least as high as `x`: `x` goes last. */
  lemma InsertAtLevelLast<N>(t: seq<N>, x: N, lv: map<N, nat>, l: nat)
    requires forall y :: y in t ==> y in lv
    requires x in lv && t != [] && lv[t[|t| - 1]] >= lv[x]
    ensures AtLevel(InsertByLevel(t, x, lv), lv, l) == AtLevel(t, lv, l) + AtLevel([x], lv, l)
  {
    assert InsertByLevel(t, x, lv) == t + [x];
    AtLevelConcat(t, [x], lv, l);
  }

  lemma AtLevelSnoc<N>(s: seq<N>, y: N, lv: map<N, nat>, l: nat)
    requires forall z :: z in s ==> z in lv
    requires y in lv
    ensures AtLevel(s + [y], lv, l) == AtLevel(s, lv, l) + (if lv[y] == l then [y] else [])
  {
    assert (s + [y])[..|s + [y]| - 1] == s;
  }

  /** Inserting past a last element `y` that is lower than `x`. */
  lemma InsertAtLevelPast<N>(t': seq<N>, y: N, x: N, lv: map<N, nat>, l: nat)
    requires forall z :: z in t' ==> z in lv
    requires x in lv && y in lv && lv[y] < lv[x]
    requires AtLevel(InsertByLevel(t', x, lv), lv, l) == AtLevel(t', lv, l) + AtLevel([x], lv, l)
    ensures AtLevel(InsertByLevel(t' + [y], x, lv), lv, l) == AtLevel(t' + [y], lv, l) + AtLevel([x], lv, l)
  {
    var r' := InsertByLevel(t', x, lv);
    InsertPast(t', y, x, lv);
    var xs: seq<N> := if lv[x] == l then [x] else [];
    var ys: seq<N> := if lv[y] == l then [y] else [];
    AtLevelSingle(x, lv, l);
    AtLevelSnoc(r', y, lv, l);
    AtLevelSnoc(t', y, lv, l);
    SwapEmpty(AtLevel(t', lv, l), xs, ys);
  }

  lemma AtLevelSingle<N>(x: N, lv: map<N, nat>, l: nat)
    requires x in lv
    ensures AtLevel([x], lv, l) == if lv[x] == l then [x] else []
  {
    assert [x][..0] == [];
  }

  lemma InsertPast<N>(t': seq<N>, y: N, x: N, lv: map<N, nat>)
    requires forall z :: z in t' ==> z in lv
    requires x in lv && y in lv && lv[y] < lv[x]
    ensures InsertByLevel(t' + [y], x, lv) == InsertByLevel(t', x, lv) + [y]
  {
    var t := t' + [y];
    assert t[..|t| - 1] == t' && t[|t| - 1] == y;
  }

  lemma SwapEmpty<T>(a: seq<T>, xs: seq<T>, ys: seq<T>)
    requires xs == [] || ys == []
    ensures a + xs + ys == a + ys + xs
  {
    if xs == [] {
      assert a + xs == a && a + ys + xs == a + ys;
    } else {
      assert a + ys == a && a + xs + ys == a + xs;
    }
  }

  lemma {:induction false} InsertAtLevel<N>(t: seq<N>, x: N, lv: map<N, nat>, l: nat)
    requires forall y :: y in t ==> y in lv
    requires x in lv && Sorted(t, lv)
    ensures AtLevel(InsertByLevel(t, x, lv), lv, l) == AtLevel(t, lv, l) + AtLevel([x], lv, l)
    decreases |t|
  {
    if t == [] {
      assert [] + [x] == [x];
    } else if lv[t[|t| - 1]] >= lv[x] {
      InsertAtLevelLast(t, x, lv, l);
    } else {
      var t', y := t[..|t| - 1], t[|t| - 1];
      SortedPrefix(t, lv);
      InsertAtLevel(t', x, lv, l);
      assert t == t' + [y];
      InsertAtLevelPast(t', y, x, lv, l);
    }
  }

  lemma {:induction false} InsertDistinct<N>(t: seq<N>, x: N, lv: map<N, nat>)
    requires forall y :: y in t ==> y in lv
    requires x in lv && Distinct(t) && x !in t
    ensures Distinct(InsertByLevel(t, x, lv))
    decreases |t|
  {
    if t == [] {
    } else {
      var t', y := t[..|t| - 1], t[|t| - 1];
      assert t == t' + [y];
      if lv[y] >= lv[x] {
        DistinctConcat(t, [x]);
      } else {
        var r' := InsertByLevel(t', x, lv);
        assert Distinct(t');
        InsertDistinct(t', x, lv);
        assert y !in multiset(t') by { assert y !in t'; }
        assert y !in r' by { assert y !in multiset(r'); }
        DistinctConcat(r', [y]);
      }
    }
  }

  /** `sorted(s, key=level, reverse=True)`, by insertion. */
  function SortByLevel<N>(s: seq<N>, lv: map<N, nat>): (r: seq<N>)
    requires forall y :: y in s ==> y in lv
    ensures multiset(r) == multiset(s)
    ensures forall y :: y in r ==> y in lv
  {
    if s == [] then []
    else
      assert s == s[..|s| - 1] + [s[|s| - 1]];
      InsertByLevel(SortByLevel(s[..|s| - 1], lv), s[|s| - 1], lv)
  }

  /** The sort puts higher levels first, keeps the order of equal levels, and keeps
      distinct elements distinct. */
  lemma {:induction false} SortByLevelSpec<N>(s: seq<N>, lv: map<N, nat>)
    requires forall y :: y in s ==> y in lv
    ensures Sorted(SortByLevel(s, lv), lv)
    ensures forall l: nat :: AtLevel(SortByLevel(s, lv), lv, l) == AtLevel(s, lv, l)
    ensures Distinct(s) ==> Distinct(SortByLevel(s, lv))
    decreases |s|
  {
    if s != [] {
      var s', x := s[..|s| - 1], s[|s| - 1];
      assert s == s' + [x];
      var r' := SortByLevel(s', lv);
      SortByLevelSpec(s', lv);
      InsertSorted(r', x, lv);
      forall l: nat ensures AtLevel(SortByLevel(s, lv), lv, l) == AtLevel(s, lv, l) {
        InsertAtLevel(r', x, lv, l);
        AtLevelConcat(s', [x], lv, l);
      }
      if Distinct(s) {
        assert x !in multiset(s') by { assert x !in s'; }
        assert x !in r' by { assert x !in multiset(r'); }
        InsertDistinct(r', x, lv);
      }
    }
  }

  // ----- What `flat_dependencies` returns -----

  /** Each node the walk reaches is listed exactly once. */
  lemma FlattenListsEachOnce<N>(g: Graph<N>, rank: map<N, nat>, p: N)
    requires Ranked(g, rank) && p in g && Linked(g, rank, p)
    ensures Distinct(Flatten(g, rank, p))
    ensures forall x :: x in Flatten(g, rank, p) ==> x in Levels(g, rank, p).items
    ensures forall x :: x in Levels(g, rank, p).items ==> x in Flatten(g, rank, p)
  {
    var lv := Levels(g, rank, p);
    SortByLevelSpec(lv.keys, lv.items);
    var r := Flatten(g, rank, p);
    forall x | x in lv.items ensures x in r {
      assert x in multiset(lv.keys);
    }
  }

  /** Every listed node is reached by a dependency path whose number of edges is one
      more than its level ... */
  lemma FlattenReached<N>(g: Graph<N>, rank: map<N, nat>, p: N, x: N) returns (path: seq<N>)
    requires Ranked(g, rank) && p in g && Linked(g, rank, p)
    requires x in Flatten(g, rank, p)
    ensures x in Levels(g, rank, p).items
    ensures IsPath(g, path) && path[0] == p && path[|path| - 1] == x
    ensures |path| == Levels(g, rank, p).items[x] + 2
  {
    FlattenListsEachOnce(g, rank, p);
    var w := Walk(g, rank, p, 0);
    RecordAttained(w);
    path := WalkToPath(g, rank, p, 0, (x, Levels(g, rank, p).items[x]));
  }

  /** ... and the end of every dependency path from the start is listed, at a level at
      least the path's number of edges minus one: the level is the longest path's. */
  lemma FlattenLongest<N>(g: Graph<N>, rank: map<N, nat>, path: seq<N>)
    requires Ranked(g, rank) && IsPath(g, path) && path[0] in g && Linked(g, rank, path[0])
    ensures path[|path| - 1] in Flatten(g, rank, path[0])
    ensures path[|path| - 1] in Levels(g, rank, path[0]).items
    ensures |path| <= Levels(g, rank, path[0]).items[path[|path| - 1]] + 2
  {
    var p, x := path[0], path[|path| - 1];
    var w := Walk(g, rank, p, 0);
    PathToWalk(g, rank, path, 0);
    var j :| 0 <= j < |w| && w[j] == (x, |path| - 2);
    RecordBounds(w);
    assert w[j].0 == x;
    FlattenListsEachOnce(g, rank, p);
  }

  /** The starting node is not listed: the graph is acyclic. */
  lemma FlattenExcludesStart<N>(g: Graph<N>, rank: map<N, nat>, p: N)
    requires Ranked(g, rank) && p in g && Linked(g, rank, p)
    ensures p !in Flatten(g, rank, p)
  {
    if p in Flatten(g, rank, p) {
      var path := FlattenReached(g, rank, p, p);
      ChainsEndBelow(g, rank, path);
    }
  }

  /** The list runs from the deepest level to the shallowest ... */
  lemma FlattenSorted<N>(g: Graph<N>, rank: map<N, nat>, p: N)
    requires Ranked(g, rank) && p in g && Linked(g, rank, p)
    ensures forall x :: x in Flatten(g, rank, p) ==> x in Levels(g, rank, p).items
    ensures Sorted(Flatten(g, rank, p), Levels(g, rank, p).items)
  {
    var lv := Levels(g, rank, p);
    SortByLevelSpec(lv.keys, lv.items);
  }

  /** A dependency of a listed node is listed at a deeper level. */
  lemma DependencyDeeper<N>(g: Graph<N>, rank: map<N, nat>, p: N, u: N, v: N)
    requires Ranked(g, rank) && p in g && Linked(g, rank, p)
    requires u in Flatten(g, rank, p) && Edge(g, u, v)
    ensures u in Levels(g, rank, p).items && v in Levels(g, rank, p).items
    ensures v in Flatten(g, rank, p)
    ensures Levels(g, rank, p).items[v] > Levels(g, rank, p).items[u]
  {
    var path := FlattenReached(g, rank, p, u);
    var longer := path + [v];
    PathSnoc(g, path, v);
    FlattenLongest(g, rank, longer);
  }

  /** A dependency path extends by an edge out of its end. */
  lemma PathSnoc<N>(g: Graph<N>, path: seq<N>, v: N)
    requires IsPath(g, path) && Edge(g, path[|path| - 1], v)
    ensures IsPath(g, path + [v]) && (path + [v])[0] == path[0] && |path + [v]| == |path| + 1
  {
    var longer := path + [v];
    forall k | 0 <= k < |longer| - 1 ensures Edge(g, longer[k], longer[k + 1]) {
      if k < |path| - 1 { assert longer[k + 1] == path[k + 1]; }
    }
  }

  /** In a sorted sequence a strictly higher element comes first. */
  lemma SortedBefore<N>(s: seq<N>, lv: map<N, nat>, i: nat, j: nat)
    requires forall x :: x in s ==> x in lv
    requires Sorted(s, lv) && i < |s| && j < |s| && lv[s[i]] > lv[s[j]]
    ensures i < j
  {
  }

  /** ... so every listed node comes before each listed node that depends on it. */
  lemma FlattenDependenciesFirst<N>(g: Graph<N>, rank: map<N, nat>, p: N)
    requires Ranked(g, rank) && p in g && Linked(g, rank, p)
    ensures var r := Flatten(g, rank, p);
      forall i, j :: 0 <= i < |r| && 0 <= j < |r| && Edge(g, r[j], r[i]) ==> i < j
  {
    var r, lv := Flatten(g, rank, p), Levels(g, rank, p).items;
    FlattenSorted(g, rank, p);
    forall i, j | 0 <= i < |r| && 0 <= j < |r| && Edge(g, r[j], r[i]) ensures i < j {
      DependencyDeeper(g, rank, p, r[j], r[i]);
      SortedBefore(r, lv, i, j);
    }
  }

  /** Nodes of equal level keep the order in which the walk first reached them. */
  lemma FlattenStable<N>(g: Graph<N>, rank: map<N, nat>, p: N)
    requires Ranked(g, rank) && p in g && Linked(g, rank, p)
    ensures Levels(g, rank, p).keys == Dedup(Nodes(Walk(g, rank, p, 0)))
    ensures forall l: nat :: AtLevel(Flatten(g, rank, p), Levels(g, rank, p).items, l) ==
                             AtLevel(Levels(g, rank, p).keys, Levels(g, rank, p).items, l)
  {
    var lv := Levels(g, rank, p);
    RecordKeys(Walk(g, rank, p, 0));
    SortByLevelSpec(lv.keys, lv.items);
  }
}
