/**
 * Client scenarios of the genealogy with string identifiers: what a caller
 * can conclude from the contracts of the container alone.
 */
module Scenarios {
  import opened Lineage
  import opened Genealogy

  /**
   * A child with a second parent survives the removal of the first, and a
   * removed node is gone from its parent's children.
   */
  method SecondParentKeepsChild() returns (rootChildren: Result<seq<string>>, twoExists: bool)
    ensures rootChildren.Ok? && "1" !in rootChildren.value && "2" in rootChildren.value
    ensures twoExists
  {
    var gen := new VirusGenealogy<string>("root");
    var o := gen.Create("1", "root");
    o := gen.Create("2", "1");
    o := gen.Connect("2", "root");
    ghost var g := gen.nodes;
    assert "root" in g["2"].parents;
    o := gen.Remove("1");
    DoomedSpares("root", g, "1");
    RemovedSurvivesIff("root", g, "1", "2");
    RemovedEdges("root", g, "1", "root");
    rootChildren := gen.GetChildren("root");
    twoExists := gen.Exists("2");
  }

  /** `3` under `2` and `1`, both children of the stem. */
  method TwoPaths() returns (gen: VirusGenealogy<string>)
    ensures fresh(gen) && gen.Valid() && gen.stem == "root"
    ensures "1" in gen.nodes && "2" in gen.nodes && "3" in gen.nodes
    ensures gen.nodes["3"].parents == {"2", "1"} && "root" in gen.nodes["2"].parents
    ensures "root" in gen.nodes["1"].parents
  {
    gen := new VirusGenealogy<string>("root");
    var r := gen.Create("2", "root");
    assert gen.nodes["2"].parents == {"root"};
    r := gen.Create("1", "root");
    assert gen.nodes["2"].parents == {"root"};
    r := gen.Create("3", "2");
    assert gen.nodes["3"].parents == {"2"} && gen.nodes["2"].parents == {"root"};
    r := gen.Connect("3", "1");
  }

  /**
   * Removing `1` from TwoPaths keeps `3`; removing `2` afterwards takes `3`
   * with it, after which `connect` no longer knows `3`.
   */
  method LastParentTakesChild() returns (afterFirst: bool, afterSecond: bool, o: Outcome)
    ensures afterFirst && !afterSecond
    ensures o == Failure(VirusNotFound)
  {
    var gen := TwoPaths();
    ghost var g := gen.nodes;
    var r := gen.Remove("1");
    DoomedSpares("root", g, "1");
    RemovedSurvivesIff("root", g, "1", "2");
    RemovedSurvivesIff("root", g, "1", "3");
    RemovedEdges("root", g, "1", "3");
    afterFirst := gen.Exists("3");
    g := gen.nodes;
    assert g["3"].parents == {"2"};
    r := gen.Remove("2");
    RemovedSurvivesIff("root", g, "2", "3");
    afterSecond := gen.Exists("3");
    o := gen.Connect("root", "3");
  }

  /** Connecting an edge that already exists adds nothing. */
  method ConnectTwice() returns (n: nat)
    ensures n == 2
  {
    var gen := new VirusGenealogy<string>("root");
    var r := gen.Create("1", "root");
    r := gen.Create("2", "root");
    assert gen.nodes["root"].children == {"1", "2"};
    r := gen.Connect("2", "root");
    assert gen.nodes["root"].children == {"1", "2"};
    var kids := gen.GetChildren("root");
    n := |kids.value|;
  }

  /** The three failures, each leaving the genealogy as it was. */
  method Failures() returns (a: Outcome, b: Outcome, c: Outcome, same: bool)
    ensures a == Failure(VirusNotFound)
    ensures b == Failure(VirusAlreadyCreated)
    ensures c == Failure(TriedToRemoveStemVirus)
    ensures same
  {
    var gen := new VirusGenealogy<string>("root");
    a := gen.Connect("1", "root");
    b := gen.Create("root", "root");
    c := gen.Remove("root");
    same := gen.nodes == Initial("root");
  }

  /** The chain root -> 1 -> 2 -> 3. */
  method ShortChain() returns (gen: VirusGenealogy<string>)
    ensures fresh(gen) && gen.Valid() && gen.stem == "root"
    ensures "1" in gen.nodes && "2" in gen.nodes && "3" in gen.nodes
    ensures "4" !in gen.nodes && "5" !in gen.nodes && "6" !in gen.nodes
    ensures gen.nodes["1"].parents == {"root"} && gen.nodes["2"].parents == {"1"}
    ensures gen.nodes["3"].parents == {"2"}
  {
    gen := new VirusGenealogy<string>("root");
    var r := gen.Create("1", "root");
    r := gen.Create("2", "1");
    assert gen.nodes["1"].parents == {"root"} && gen.nodes["2"].parents == {"1"};
    r := gen.Create("3", "2");
  }

  /** The chain root -> 1 -> 2 -> 3 -> 4 -> 5. */
  method Chain() returns (gen: VirusGenealogy<string>)
    ensures fresh(gen) && gen.Valid() && gen.stem == "root"
    ensures "1" in gen.nodes && "2" in gen.nodes && "3" in gen.nodes && "4" in gen.nodes && "5" in gen.nodes
    ensures gen.nodes["2"].parents == {"1"} && gen.nodes["3"].parents == {"2"}
    ensures gen.nodes["4"].parents == {"3"} && gen.nodes["5"].parents == {"4"}
    ensures "6" !in gen.nodes
  {
    gen := ShortChain();
    var r := gen.Create("4", "3");
    assert gen.nodes["2"].parents == {"1"} && gen.nodes["3"].parents == {"2"} && gen.nodes["4"].parents == {"3"};
    r := gen.Create("5", "4");
    assert gen.nodes["2"].parents == {"1"} && gen.nodes["3"].parents == {"2"} && gen.nodes["4"].parents == {"3"};
  }

  /**
   * Chain with the shortcut 1 -> 5 and `6` under `2` and the stem: removing
   * `1` takes 1 to 5 out in one call and keeps `6`, after which `connect` no
   * longer knows `5`.
   */
  method CascadeThroughChain() returns (gone: bool, sixExists: bool, o: Outcome)
    ensures gone && sixExists
    ensures o == Failure(VirusNotFound)
  {
    var gen := Chain();
    var r := gen.Connect("5", "1");
    assert gen.nodes["5"].parents == {"4", "1"};
    r := gen.Create("6", "2");
    r := gen.Connect("6", "root");
    ghost var g := gen.nodes;
    assert g["2"].parents == {"1"} && g["3"].parents == {"2"} && g["4"].parents == {"3"};
    assert g["5"].parents == {"4", "1"} && "root" in g["6"].parents;
    r := gen.Remove("1");
    DoomedSpares("root", g, "1");
    RemovedSurvivesIff("root", g, "1", "2");
    RemovedSurvivesIff("root", g, "1", "3");
    RemovedSurvivesIff("root", g, "1", "4");
    RemovedSurvivesIff("root", g, "1", "5");
    RemovedSurvivesIff("root", g, "1", "6");
    gone := !gen.Exists("1") && !gen.Exists("2") && !gen.Exists("3") && !gen.Exists("4") && !gen.Exists("5");
    sixExists := gen.Exists("6");
    o := gen.Connect("5", "6");
  }

  /**
   * The upper half of the diagram below: `1b` under the stem, `2a` and `2b`
   * under `1b`, and `3` created under `2a` and `2b` at once.
   */
  method TwoParents() returns (gen: VirusGenealogy<string>)
    ensures fresh(gen) && gen.Valid() && gen.stem == "root"
    ensures "1b" in gen.nodes && "2a" in gen.nodes && "2b" in gen.nodes && "3" in gen.nodes
    ensures gen.nodes["3"].parents == {"2a", "2b"} && gen.nodes["2b"].parents == {"1b"}
    ensures gen.nodes["1b"].parents == {"root"}
  {
    gen := new VirusGenealogy<string>("root");
    var r := gen.Create("1b", "root");
    r := gen.Create("2a", "1b");
    assert gen.nodes["1b"].parents == {"root"};
    r := gen.Create("2b", "1b");
    assert gen.nodes["1b"].parents == {"root"} && gen.nodes["2b"].parents == {"1b"};
    assert (set p | p in ["2a", "2b"]) == {"2a", "2b"};
    r := gen.CreateMany("3", ["2a", "2b"]);
  }

  /** `3` survives the removal of `2a` and goes with `2b`. */
  method SurvivesUntilLastParent() returns (afterFirst: bool, afterSecond: bool)
    ensures afterFirst && !afterSecond
  {
    var gen := TwoParents();
    ghost var g := gen.nodes;
    var r := gen.Remove("2a");
    DoomedSpares("root", g, "2a");
    RemovedSurvivesIff("root", g, "2a", "1b");
    RemovedSurvivesIff("root", g, "2a", "2b");
    RemovedSurvivesIff("root", g, "2a", "3");
    RemovedEdges("root", g, "2a", "3");
    afterFirst := gen.Exists("3");
    g := gen.nodes;
    assert g["3"].parents == {"2b"};
    r := gen.Remove("2b");
    RemovedSurvivesIff("root", g, "2b", "3");
    afterSecond := gen.Exists("3");
  }

  /**
   * For any genealogy with the parents drawn below: removing `1b` takes out
   * everything below it down to `5`, keeps `6` (held by `1a`) and its
   * children; removing `1a` afterwards takes out `6`, `7a` and `7b`.
   *
   *        root
   *       /    \
   *     1a      1b
   *      |     /  \
   *      |   2a    2b
   *      |     \  /
   *      |      3
   *      |     / \
   *      |   4a   4b
   *      |     \  /
   *      |      5
   *       \    /
   *         6
   *        / \
   *      7a   7b
   */
  lemma DiamondLineage(g: Graph<string>)
    requires DiamondShape(g)
    ensures
      var h := Removed("root", g, "1b");
      && "2a" !in h && "2b" !in h && "3" !in h && "4a" !in h && "4b" !in h && "5" !in h
      && "1a" in h && "6" in h && "7a" in h && "7b" in h
      && var k := Removed("root", h, "1a");
         "6" !in k && "7a" !in k && "7b" !in k
  {
    DiamondFirstRemoval(g);
    DiamondSecondRemoval(Removed("root", g, "1b"));
  }

  ghost predicate DiamondShape(g: Graph<string>)
  {
    && WellFormed("root", g)
    && "1a" in g && "1b" in g && "2a" in g && "2b" in g && "3" in g && "4a" in g
    && "4b" in g && "5" in g && "6" in g && "7a" in g && "7b" in g
    && g["1a"].parents == {"root"} && g["1b"].parents == {"root"}
    && g["2a"].parents == {"1b"} && g["2b"].parents == {"1b"} && g["3"].parents == {"2a", "2b"}
    && g["4a"].parents == {"3"} && g["4b"].parents == {"3"} && g["5"].parents == {"4a", "4b"}
    && g["6"].parents == {"5", "1a"} && g["7a"].parents == {"6"} && g["7b"].parents == {"6"}
  }

  lemma DiamondFirstRemoval(g: Graph<string>)
    requires DiamondShape(g)
    ensures
      var h := Removed("root", g, "1b");
      && WellFormed("root", h)
      && "2a" !in h && "2b" !in h && "3" !in h && "4a" !in h && "4b" !in h && "5" !in h
      && "1a" in h && "6" in h && "7a" in h && "7b" in h
      && h["6"].parents == {"1a"} && h["7a"].parents == {"6"} && h["7b"].parents == {"6"}
  {
    var h := Removed("root", g, "1b");
    DoomedSpares("root", g, "1b");
    RemovedWellFormed("root", g, "1b");
    RemovedSurvivesIff("root", g, "1b", "1a");
    RemovedSurvivesIff("root", g, "1b", "2a");
    RemovedSurvivesIff("root", g, "1b", "2b");
    assert "2a" !in h && "2b" !in h;
    RemovedSurvivesIff("root", g, "1b", "3");
    RemovedSurvivesIff("root", g, "1b", "4a");
    RemovedSurvivesIff("root", g, "1b", "4b");
    assert "4a" !in h && "4b" !in h;
    RemovedSurvivesIff("root", g, "1b", "5");
    RemovedSurvivesIff("root", g, "1b", "6");
    RemovedSurvivesIff("root", g, "1b", "7a");
    RemovedSurvivesIff("root", g, "1b", "7b");
    RemovedEdges("root", g, "1b", "6");
    RemovedEdges("root", g, "1b", "7a");
    RemovedEdges("root", g, "1b", "7b");
  }

  lemma DiamondSecondRemoval(h: Graph<string>)
    requires WellFormed("root", h) && "1a" in h && "6" in h && "7a" in h && "7b" in h
    requires h["6"].parents == {"1a"} && h["7a"].parents == {"6"} && h["7b"].parents == {"6"}
    ensures
      var k := Removed("root", h, "1a");
      "6" !in k && "7a" !in k && "7b" !in k
  {
    DoomedSpares("root", h, "1a");
    RemovedSurvivesIff("root", h, "1a", "6");
    RemovedSurvivesIff("root", h, "1a", "7a");
    RemovedSurvivesIff("root", h, "1a", "7b");
  }
}
