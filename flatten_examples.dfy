module FlattenExamples {
  import opened Wrappers
  import opened Dicts
  import opened Flattening

  /** C depends on A, and A on B. */
  function ChainGraph(): Graph<string> {
    map["C" := [Some("A")], "A" := [Some("B")], "B" := []]
  }

  function ChainRank(): map<string, nat> {
    map["C" := 2, "A" := 1, "B" := 0]
  }

  lemma ChainWalk()
    ensures Ranked(ChainGraph(), ChainRank()) && Linked(ChainGraph(), ChainRank(), "C")
    ensures Walk(ChainGraph(), ChainRank(), "C", 0) == [("A", 0), ("B", 1)]
  {
    var g, rank := ChainGraph(), ChainRank();
    assert Linked(g, rank, "B");
    assert Linked(g, rank, "A");
    assert Walk(g, rank, "B", 2) == [];
    assert Walk(g, rank, "A", 1) == [("B", 1)];
  }

  lemma ChainRecord()
    ensures Record(Empty(), [("A", 0), ("B", 1)]) == Dict(["A", "B"], map["A" := 0, "B" := 1])
  {
    var w: seq<(string, nat)> := [("A", 0), ("B", 1)];
    var w1 := w[..1];
    assert w1 == [("A", 0)] && w1[..0] == [];
    var e: Dict<string, nat> := Empty();
    assert Record(e, w1[..0]) == e;
    var v1 := Record(e, w1);
    assert v1 == Step(e, "A", 0);
    assert v1 == Dict(["A"], map["A" := 0]);
    assert Record(e, w) == Step(v1, "B", 1);
  }

  lemma ChainExample()
    ensures Ranked(ChainGraph(), ChainRank()) && Linked(ChainGraph(), ChainRank(), "C")
    ensures Flatten(ChainGraph(), ChainRank(), "C") == ["B", "A"]
  {
    ChainWalk();
    ChainRecord();
    ChainSort();
  }

  lemma ChainSort()
    ensures SortByLevel(["A", "B"], map["A" := 0, "B" := 1]) == ["B", "A"]
  {
    var lv := map["A" := 0, "B" := 1];
    var s: seq<string> := ["A", "B"];
    assert s[..|s| - 1] == ["A"] && s[|s| - 1] == "B";
    SortSingle("A", lv);
    assert SortByLevel(s, lv) == InsertByLevel(["A"], "B", lv);
    var none: seq<string> := [];
    InsertPast(none, "A", "B", lv);
    assert none + ["A"] == ["A"];
    assert InsertByLevel(none, "B", lv) == ["B"];
    assert InsertByLevel(["A"], "B", lv) == ["B"] + ["A"];
  }

  lemma SortSingle(x: string, lv: map<string, nat>)
    requires x in lv
    ensures SortByLevel([x], lv) == [x]
  {
    assert [x][..0] == [];
  }

  /** C depends on A and then B, and B also depends on A. */
  function SharedGraph(): Graph<string> {
    map["C" := [Some("A"), Some("B")], "B" := [Some("A")], "A" := []]
  }

  function SharedRank(): map<string, nat> {
    map["C" := 2, "B" := 1, "A" := 0]
  }

  lemma SharedWalk()
    ensures Ranked(SharedGraph(), SharedRank()) && Linked(SharedGraph(), SharedRank(), "C")
    ensures Walk(SharedGraph(), SharedRank(), "C", 0) == [("A", 0), ("B", 0), ("A", 1)]
  {
    var g, rank := SharedGraph(), SharedRank();
    assert Linked(g, rank, "A");
    assert Linked(g, rank, "B");
    assert Walk(g, rank, "A", 1) == [] && Walk(g, rank, "A", 2) == [];
    assert Walk(g, rank, "B", 1) == [("A", 1)];
    assert WalkDeps(g, rank, "C", 0, 1) == [("A", 0)];
  }

  lemma SharedRecordPrefix()
    ensures Record(Empty(), [("A", 0), ("B", 0)]) == Dict(["A", "B"], map["A" := 0, "B" := 0])
  {
    var w2: seq<(string, nat)> := [("A", 0), ("B", 0)];
    var w1 := w2[..1];
    assert w1 == [("A", 0)] && w1[..0] == [];
    var e: Dict<string, nat> := Empty();
    assert Record(e, w1[..0]) == e;
    var v1 := Record(e, w1);
    assert v1 == Step(e, "A", 0);
    assert v1 == Dict(["A"], map["A" := 0]);
    assert Record(e, w2) == Step(v1, "B", 0);
  }

  lemma SharedRecord()
    ensures Record(Empty(), [("A", 0), ("B", 0), ("A", 1)]) == Dict(["A", "B"], map["A" := 1, "B" := 0])
  {
    var w: seq<(string, nat)> := [("A", 0), ("B", 0), ("A", 1)];
    assert w[..2] == [("A", 0), ("B", 0)];
    SharedRecordPrefix();
    var v2: Dict<string, nat> := Dict(["A", "B"], map["A" := 0, "B" := 0]);
    assert Record(Empty(), w) == Step(v2, "A", 1);
    RaiseA(v2);
  }

  lemma RaiseA(v2: Dict<string, nat>)
    requires v2 == Dict(["A", "B"], map["A" := 0, "B" := 0])
    ensures Step(v2, "A", 1) == Dict(["A", "B"], map["A" := 1, "B" := 0])
  {
    assert v2.Get("A", 1) == 0 && "A" in v2.items;
    assert v2.items["A" := 1] == map["A" := 1, "B" := 0];
  }

  lemma SharedSort()
    ensures SortByLevel(["A", "B"], map["A" := 1, "B" := 0]) == ["A", "B"]
  {
    var lv := map["A" := 1, "B" := 0];
    SortSingle("A", lv);
    assert ["A", "B"][..1] == ["A"];
    assert InsertByLevel(["A"], "B", lv) == ["A"] + ["B"];
  }

  /** A is reached at level 0 directly and at level 1 through B, so it is listed first. */
  lemma SharedExample()
    ensures Ranked(SharedGraph(), SharedRank()) && Linked(SharedGraph(), SharedRank(), "C")
    ensures Flatten(SharedGraph(), SharedRank(), "C") == ["A", "B"]
  {
    SharedWalk();
    SharedRecord();
    SharedSort();
  }
}
