/** Which bones the hierarchy printer emits, and how often: every bone whose
    parent chain reaches a root exactly once, every other bone never. */
module WalkCount {
  import opened Skeleton
  import opened ChildrenTable
  import opened NameTable
  import opened Hierarchy

  /** Bone `c` lies in the subtree of bone `b`, which sits at depth `level`:
      `c` has a depth and its ancestor at that depth is `b`. */
  ghost predicate InSubtree(bones: seq<Bone>, c: nat, b: nat, level: nat) {
    && Connected(bones, c)
    && level <= Depth(bones, c)
    && AncestorAt(bones, c, Depth(bones, c), level) == b
  }

  lemma IdsAppend(a: seq<Line>, b: seq<Line>)
    ensures Ids(a + b) == Ids(a) + Ids(b)
  {
  }

  /** The walk entered at `b` emits each bone of b's subtree once and
      nothing else. */
  lemma {:induction false} CountVisit(bones: seq<Bone>, children: seq<seq<nat>>, names: seq<string>, b: nat, level: nat, c: nat)
    requires WalkTables(bones, children, names)
    requires DepthIs(bones, b, level)
    ensures multiset(Ids(Visit(bones, children, names, b, level)))[c] == if InSubtree(bones, c, b, level) then 1 else 0
    decreases |bones| - level, 1, 0
  {
    DepthBound(bones, b, level);
    var rest := VisitChildren(bones, children, names, b, level, 0);
    assert Visit(bones, children, names, b, level) == [Line(level, b, names[b])] + rest;
    IdsAppend([Line(level, b, names[b])], rest);
    CountChildren(bones, children, names, b, level, 0, c);
    assert children[b][0..] == children[b];
    DepthOf(bones, b, level);
    if c == b {
      assert InSubtree(bones, c, b, level);
    } else if Connected(bones, c) {
      var d := Depth(bones, c);
      if level + 1 <= d {
        AncestorParent(bones, c, d, level);
      }
    }
  }

  /** The walks of the children of `b` from list position `i` on emit each
      bone whose ancestor one level below `b` is one of those children. */
  lemma {:induction false} CountChildren(bones: seq<Bone>, children: seq<seq<nat>>, names: seq<string>, b: nat, level: nat, i: nat, c: nat)
    requires WalkTables(bones, children, names)
    requires DepthIs(bones, b, level)
    requires i <= |children[b]|
    ensures multiset(Ids(VisitChildren(bones, children, names, b, level, i)))[c]
            == if Connected(bones, c) && level + 1 <= Depth(bones, c)
                  && AncestorAt(bones, c, Depth(bones, c), level + 1) in children[b][i..]
               then 1 else 0
    decreases |bones| - level, 0, |children[b]| - i
  {
    var kids := children[b];
    if i < |kids| {
      var a := kids[i];
      ChildIsOneDeeper(bones, children, names, b, level, a);
      var here := Visit(bones, children, names, a, level + 1);
      var later := VisitChildren(bones, children, names, b, level, i + 1);
      assert VisitChildren(bones, children, names, b, level, i) == here + later;
      IdsAppend(here, later);
      CountVisit(bones, children, names, a, level + 1, c);
      CountChildren(bones, children, names, b, level, i + 1, c);
      if Connected(bones, c) && level + 1 <= Depth(bones, c) {
        SplitAt(kids, i, AncestorAt(bones, c, Depth(bones, c), level + 1));
      }
    }
  }

  /** Position `i` of an ascending list splits it into its head and a tail
      that does not repeat the head. */
  lemma SplitAt(kids: seq<nat>, i: nat, x: nat)
    requires i < |kids| && StrictlyIncreasing(kids)
    ensures x in kids[i..] <==> x == kids[i] || x in kids[i + 1..]
    ensures kids[i] !in kids[i + 1..]
  {
    assert kids[i..] == [kids[i]] + kids[i + 1..];
  }

  /** The outer loop from index `cb` on emits each connected bone whose
      root has index `cb` or more. */
  lemma {:induction false} CountRoots(bones: seq<Bone>, children: seq<seq<nat>>, names: seq<string>, cb: nat, c: nat)
    requires WalkTables(bones, children, names)
    requires cb <= |bones|
    ensures multiset(Ids(EmitRoots(bones, children, names, cb)))[c]
            == if Connected(bones, c) && AncestorAt(bones, c, Depth(bones, c), 0) >= cb then 1 else 0
    decreases |bones| - cb
  {
    if cb < |bones| {
      CountRoots(bones, children, names, cb + 1, c);
      if !bones[cb].hasParentBoneId {
        var here := Visit(bones, children, names, cb, 0);
        var later := EmitRoots(bones, children, names, cb + 1);
        IdsAppend(here, later);
        CountVisit(bones, children, names, cb, 0, c);
      }
    }
  }

  /** The printer emits every bone whose parent chain reaches a root exactly
      once, and no other bone: bones on a parent cycle, or below one, are
      never printed. */
  lemma PrintedOnce(bones: seq<Bone>, entries: seq<NameEntry>, c: nat)
    requires ValidParents(bones) && IdsInRange(entries, |bones|)
    ensures multiset(Ids(PrintBoneHierarchy(bones, entries)))[c] == if Connected(bones, c) then 1 else 0
  {
    CountRoots(bones, BuildChildren(bones), InvertNames(entries, |bones|), 0, c);
  }

  /** For a bone array in which every parent precedes its children, the
      printer lists every bone exactly once. */
  lemma PrintedOnceWhenParentsFirst(bones: seq<Bone>, entries: seq<NameEntry>, c: nat)
    requires ParentsFirst(bones) && IdsInRange(entries, |bones|) && c < |bones|
    ensures ValidParents(bones)
    ensures multiset(Ids(PrintBoneHierarchy(bones, entries)))[c] == 1
  {
    ParentsFirstConnected(bones, c);
    PrintedOnce(bones, entries, c);
  }
}
