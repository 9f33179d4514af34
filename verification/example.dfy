/** A worked instance of the printer on a five-bone skeleton in which two
    bones point at each other as parents. */
module Example {
  import opened Skeleton
  import opened ChildrenTable
  import opened NameTable
  import opened Hierarchy
  import opened Format

  /** Bone 0 is the root, 1 hangs under 0 and 4 under 1; bones 2 and 3 are
      each other's parent and so are not reachable from any root. */
  const bones: seq<Bone> := [Bone(false, 0), Bone(true, 0), Bone(true, 3), Bone(true, 2), Bone(true, 1)]
  const entries: seq<NameEntry> :=
    [NameEntry("root", 0), NameEntry("arm", 1), NameEntry("loopA", 2), NameEntry("loopB", 3), NameEntry("hand", 4)]

  /** One step of the scan: bone `n` joins the list of its parent `p`. */
  lemma ScanStep(n: nat, p: nat, before: seq<seq<nat>>, after: seq<seq<nat>>)
    requires 1 <= n < |bones| && bones[n] == Bone(true, p)
    requires ScanChildren(bones, n) == before
    requires |after| == |before| == |bones| && p < |bones|
    requires after[p] == before[p] + [n]
    requires forall q :: 0 <= q < |bones| && q != p ==> after[q] == before[q]
    ensures ScanChildren(bones, n + 1) == after
  {
    assert before[p := before[p] + [n]] == after;
  }

  lemma ExampleChildren()
    ensures ValidParents(bones)
    ensures BuildChildren(bones) == [[1], [4], [3], [2], []]
  {
    assert ScanChildren(bones, 0) == [[], [], [], [], []];
    assert ScanChildren(bones, 1) == [[], [], [], [], []];
    ScanStep(1, 0, [[], [], [], [], []], [[1], [], [], [], []]);
    ScanStep(2, 3, [[1], [], [], [], []], [[1], [], [], [2], []]);
    ScanStep(3, 2, [[1], [], [], [2], []], [[1], [], [3], [2], []]);
    ScanStep(4, 1, [[1], [], [3], [2], []], [[1], [4], [3], [2], []]);
  }

  lemma ExampleIds()
    ensures IdsInRange(entries, |bones|) && DistinctIds(entries)
    ensures entries[0] == NameEntry("root", 0) && entries[1] == NameEntry("arm", 1)
    ensures entries[2] == NameEntry("loopA", 2) && entries[3] == NameEntry("loopB", 3)
    ensures entries[4] == NameEntry("hand", 4)
  {
  }

  /** The names table of any injective map with the example's entries. */
  lemma NamesOf(e: seq<NameEntry>)
    requires |e| == 5 && IdsInRange(e, 5) && DistinctIds(e)
    requires e[0] == NameEntry("root", 0) && e[1] == NameEntry("arm", 1)
    requires e[2] == NameEntry("loopA", 2) && e[3] == NameEntry("loopB", 3)
    requires e[4] == NameEntry("hand", 4)
    ensures InvertNames(e, 5) == ["root", "arm", "loopA", "loopB", "hand"]
  {
    InvertIsInverse(e, 5);
    var t := InvertNames(e, 5);
    assert t[0] == "root" && t[1] == "arm" && t[2] == "loopA";
    assert t[3] == "loopB" && t[4] == "hand";
  }

  lemma ExampleNames()
    ensures IdsInRange(entries, |bones|)
    ensures InvertNames(entries, |bones|) == ["root", "arm", "loopA", "loopB", "hand"]
  {
    ExampleIds();
    NamesOf(entries);
  }

  /** The walk tables of the example. */
  lemma ExampleTables()
    ensures WalkTables(bones, [[1], [4], [3], [2], []], ["root", "arm", "loopA", "loopB", "hand"])
  {
    ExampleChildren();
  }

  lemma ExampleArm()
    ensures WalkTables(bones, [[1], [4], [3], [2], []], ["root", "arm", "loopA", "loopB", "hand"])
    ensures DepthIs(bones, 1, 1)
    ensures Visit(bones, [[1], [4], [3], [2], []], ["root", "arm", "loopA", "loopB", "hand"], 1, 1)
            == [Line(1, 1, "arm"), Line(2, 4, "hand")]
  {
    ExampleTables();
    var children: seq<seq<nat>> := [[1], [4], [3], [2], []];
    var names := ["root", "arm", "loopA", "loopB", "hand"];
    assert DepthIs(bones, 0, 0);
    assert DepthIs(bones, 1, 1);
    assert DepthIs(bones, 4, 2);
    var hand := Visit(bones, children, names, 4, 2);
    assert VisitChildren(bones, children, names, 4, 2, 0) == [];
    assert hand == [Line(2, 4, "hand")];
    assert VisitChildren(bones, children, names, 1, 1, 1) == [];
    assert VisitChildren(bones, children, names, 1, 1, 0) == hand;
  }

  /** The walk from the root prints the root and then the arm's subtree. */
  lemma ExampleRoot()
    ensures WalkTables(bones, [[1], [4], [3], [2], []], ["root", "arm", "loopA", "loopB", "hand"])
    ensures DepthIs(bones, 0, 0)
    ensures Visit(bones, [[1], [4], [3], [2], []], ["root", "arm", "loopA", "loopB", "hand"], 0, 0)
            == [Line(0, 0, "root"), Line(1, 1, "arm"), Line(2, 4, "hand")]
  {
    ExampleArm();
    var children: seq<seq<nat>> := [[1], [4], [3], [2], []];
    var names := ["root", "arm", "loopA", "loopB", "hand"];
    var arm := [Line(1, 1, "arm"), Line(2, 4, "hand")];
    assert DepthIs(bones, 0, 0);
    assert VisitChildren(bones, children, names, 0, 0, 1) == [];
    assert VisitChildren(bones, children, names, 0, 0, 0) == arm;
  }

  /** Only bone 0 starts a walk: bones 1 to 4 all have a parent. */
  lemma ExampleOuterLoop()
    ensures WalkTables(bones, [[1], [4], [3], [2], []], ["root", "arm", "loopA", "loopB", "hand"])
    ensures EmitRoots(bones, [[1], [4], [3], [2], []], ["root", "arm", "loopA", "loopB", "hand"], 0)
            == [Line(0, 0, "root"), Line(1, 1, "arm"), Line(2, 4, "hand")]
  {
    ExampleRoot();
    var children: seq<seq<nat>> := [[1], [4], [3], [2], []];
    var names := ["root", "arm", "loopA", "loopB", "hand"];
    assert EmitRoots(bones, children, names, 5) == [];
    assert EmitRoots(bones, children, names, 4) == [];
    assert EmitRoots(bones, children, names, 3) == [];
    assert EmitRoots(bones, children, names, 2) == [];
    assert EmitRoots(bones, children, names, 1) == [];
  }

  lemma ExampleLines()
    ensures ValidParents(bones) && IdsInRange(entries, |bones|)
    ensures PrintBoneHierarchy(bones, entries) == [Line(0, 0, "root"), Line(1, 1, "arm"), Line(2, 4, "hand")]
  {
    ExampleChildren();
    ExampleNames();
    ExampleOuterLoop();
  }

  lemma RenderCons(line: Line, rest: seq<Line>)
    ensures Render([line] + rest) == RenderLine(line) + Render(rest)
  {
    assert ([line] + rest)[1..] == rest;
  }

  lemma RenderRoot()
    ensures RenderLine(Line(0, 0, "root")) == "0 root\n"
  {
    assert DecimalOf(0) == "0" && Spaces(0) == "";
  }

  lemma RenderArm()
    ensures RenderLine(Line(1, 1, "arm")) == "  1 arm\n"
  {
    assert DecimalOf(1) == "1" && Spaces(2) == "  ";
  }

  lemma RenderHand()
    ensures RenderLine(Line(2, 4, "hand")) == "    4 hand\n"
  {
    assert DecimalOf(4) == "4" && Spaces(4) == "    ";
  }

  lemma ExampleRender(lines: seq<Line>)
    requires lines == [Line(0, 0, "root"), Line(1, 1, "arm"), Line(2, 4, "hand")]
    ensures Render(lines) == "0 root\n" + "  1 arm\n" + "    4 hand\n"
  {
    RenderRoot();
    RenderArm();
    RenderHand();
    var hand := [Line(2, 4, "hand")];
    var arm := [Line(1, 1, "arm")] + hand;
    assert lines == [Line(0, 0, "root")] + arm;
    RenderCons(Line(2, 4, "hand"), []);
    assert hand == [Line(2, 4, "hand")] + [];
    RenderCons(Line(1, 1, "arm"), hand);
    RenderCons(Line(0, 0, "root"), arm);
  }

  /** The printer writes the connected bones as an indented tree and skips
      the two bones on the cycle. */
  lemma CycleIsSkipped()
    ensures ValidParents(bones) && IdsInRange(entries, |bones|)
    ensures PrintedText(bones, entries) == "0 root\n" + "  1 arm\n" + "    4 hand\n"
  {
    ExampleLines();
    ExampleRender(PrintBoneHierarchy(bones, entries));
  }
}
