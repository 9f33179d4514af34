/** The shape of the printed hierarchy: reading the indentation back gives
    the parent links. Each indented line hangs under the nearest earlier
    line that is less indented; that line is one level shallower and names
    the bone's parent, and lines hanging under the same line appear in
    ascending bone order. */
module WalkShape {
  import opened Skeleton
  import opened ChildrenTable
  import opened NameTable
  import opened Hierarchy

  /** Line `k` hangs under line `j`: `j` is the nearest earlier line with a
      smaller level, and its level is exactly one less. */
  predicate HangsUnder(s: seq<Line>, j: int, k: int) {
    && 0 <= j < k < |s|
    && s[j].level + 1 == s[k].level
    && forall m :: j < m < k ==> s[m].level >= s[k].level
  }

  /** Line `k` hangs under a line that names its parent bone. */
  ghost predicate UnderParent(bones: seq<Bone>, s: seq<Line>, k: int)
    requires 0 <= k < |s|
  {
    exists j :: HangsUnder(s, j, k) && ParentOf(bones, s[j].boneId, s[k].boneId)
  }

  /** Lines hanging under the same line are in ascending bone order. */
  ghost predicate SiblingsAscending(s: seq<Line>) {
    forall j, k1, k2 :: HangsUnder(s, j, k1) && HangsUnder(s, j, k2) && k1 < k2 ==> s[k1].boneId < s[k2].boneId
  }

  /** The lines at level `m` are in ascending bone order. */
  predicate LevelAscending(s: seq<Line>, m: nat) {
    forall k1, k2 :: 0 <= k1 < k2 < |s| && s[k1].level == m && s[k2].level == m ==> s[k1].boneId < s[k2].boneId
  }

  lemma HangsLeft(a: seq<Line>, b: seq<Line>, j: int, k: int)
    requires 0 <= j < k < |a|
    ensures HangsUnder(a + b, j, k) <==> HangsUnder(a, j, k)
  {
    assert forall m :: j < m < k ==> (a + b)[m] == a[m];
  }

  lemma HangsRight(a: seq<Line>, b: seq<Line>, j: int, k: int)
    requires 0 <= j < k < |b|
    ensures HangsUnder(a + b, |a| + j, |a| + k) <==> HangsUnder(b, j, k)
  {
    var s := a + b;
    if HangsUnder(b, j, k) {
      forall m | |a| + j < m < |a| + k ensures s[m].level >= s[|a| + k].level {
        assert s[m] == b[m - |a|];
      }
    }
    if HangsUnder(s, |a| + j, |a| + k) {
      forall m | j < m < k ensures b[m].level >= b[k].level {
        assert s[|a| + m] == b[m];
      }
    }
  }

  /** No line of `b` hangs under a line of `a` when every line of `a` is at
      level `m` or deeper and `b` starts at level `m`. */
  lemma NoCrossing(a: seq<Line>, b: seq<Line>, j: int, k: int, m: nat)
    requires forall x :: 0 <= x < |a| ==> a[x].level >= m
    requires 0 < |b| && b[0].level == m
    requires 0 <= j < |a| <= k < |a| + |b|
    ensures !HangsUnder(a + b, j, k)
  {
    var s := a + b;
    assert s[j] == a[j];
    assert s[|a|] == b[0];
  }

  /** Every line of `s` after the first is deeper than the first and hangs
      under its parent's line. */
  ghost predicate TreeFrom(bones: seq<Bone>, s: seq<Line>) {
    && |s| >= 1
    && (forall k :: 1 <= k < |s| ==> s[k].level > s[0].level)
    && (forall k :: 1 <= k < |s| ==> UnderParent(bones, s, k))
  }

  /** Every line of `t` deeper than `m` hangs under its parent's line. */
  ghost predicate DeepLinesUnderParent(bones: seq<Bone>, t: seq<Line>, m: nat) {
    forall k :: 0 <= k < |t| && t[k].level > m ==> UnderParent(bones, t, k)
  }

  /** `t` is empty or starts at level `m`, and no line is above level `m`. */
  predicate StartsAt(t: seq<Line>, m: nat) {
    && (|t| > 0 ==> t[0].level == m)
    && (forall k :: 0 <= k < |t| ==> t[k].level >= m)
  }

  /** Appending a further run of lines after a tree keeps the parent links
      of both parts. */
  lemma ParentsAppend(bones: seq<Bone>, v: seq<Line>, r: seq<Line>, m: nat)
    requires TreeFrom(bones, v) && v[0].level == m
    requires DeepLinesUnderParent(bones, r, m)
    ensures DeepLinesUnderParent(bones, v + r, m)
  {
    var t := v + r;
    forall k | 0 <= k < |t| && t[k].level > m ensures UnderParent(bones, t, k) {
      if k < |v| {
        assert t[k] == v[k];
        assert k >= 1;
        assert UnderParent(bones, v, k);
        var j :| HangsUnder(v, j, k) && ParentOf(bones, v[j].boneId, v[k].boneId);
        HangsLeft(v, r, j, k);
        assert t[j] == v[j];
      } else {
        assert t[k] == r[k - |v|];
        var j :| HangsUnder(r, j, k - |v|) && ParentOf(bones, r[j].boneId, r[k - |v|].boneId);
        HangsRight(v, r, j, k - |v|);
        assert t[|v| + j] == r[j];
      }
    }
  }

  /** Sibling order survives appending when no line of the second part can
      hang under a line of the first. */
  lemma SiblingsAppend(v: seq<Line>, r: seq<Line>, m: nat)
    requires forall x :: 0 <= x < |v| ==> v[x].level >= m
    requires |r| > 0 ==> r[0].level == m
    requires SiblingsAscending(v) && SiblingsAscending(r)
    ensures SiblingsAscending(v + r)
  {
    var t := v + r;
    forall j, k1, k2 | HangsUnder(t, j, k1) && HangsUnder(t, j, k2) && k1 < k2
      ensures t[k1].boneId < t[k2].boneId
    {
      if k2 < |v| {
        HangsLeft(v, r, j, k1);
        HangsLeft(v, r, j, k2);
        assert t[k1] == v[k1] && t[k2] == v[k2];
      } else if j >= |v| {
        HangsRight(v, r, j - |v|, k1 - |v|);
        HangsRight(v, r, j - |v|, k2 - |v|);
        assert t[k1] == r[k1 - |v|] && t[k2] == r[k2 - |v|];
      } else {
        NoCrossing(v, r, j, k2, m);
      }
    }
  }

  /** The level-`m` lines of a tree at level `m` followed by a run whose
      level-`m` lines all name larger bones stay in ascending order. */
  lemma LevelAppend(v: seq<Line>, r: seq<Line>, m: nat)
    requires |v| >= 1 && v[0].level == m
    requires forall k :: 1 <= k < |v| ==> v[k].level > m
    requires forall k :: 0 <= k < |r| && r[k].level == m ==> r[k].boneId > v[0].boneId
    requires LevelAscending(r, m)
    ensures LevelAscending(v + r, m)
    ensures forall k :: 0 <= k < |v + r| && (v + r)[k].level == m ==> (v + r)[k].boneId >= v[0].boneId
  {
    var t := v + r;
    forall k1, k2 | 0 <= k1 < k2 < |t| && t[k1].level == m && t[k2].level == m
      ensures t[k1].boneId < t[k2].boneId
    {
      assert t[k2] == r[k2 - |v|];
      if k1 >= |v| {
        assert t[k1] == r[k1 - |v|];
      } else {
        assert t[k1] == v[k1];
      }
    }
    forall k | 0 <= k < |t| && t[k].level == m ensures t[k].boneId >= v[0].boneId {
      if k >= |v| {
        assert t[k] == r[k - |v|];
      } else {
        assert t[k] == v[k];
      }
    }
  }

  lemma HangsUnderHead(h: Line, t: seq<Line>, k: nat)
    requires StartsAt(t, h.level + 1)
    requires 1 <= k <= |t| && t[k - 1].level == h.level + 1
    ensures HangsUnder([h] + t, 0, k)
  {
    var s := [h] + t;
    forall m | 0 < m < k ensures s[m].level >= s[k].level {
      assert s[m] == t[m - 1];
    }
  }

  lemma PrependShifts(bones: seq<Bone>, h: Line, t: seq<Line>, k: nat)
    requires 1 <= k <= |t| && UnderParent(bones, t, k - 1)
    ensures UnderParent(bones, [h] + t, k)
  {
    var s := [h] + t;
    var j :| HangsUnder(t, j, k - 1) && ParentOf(bones, t[j].boneId, t[k - 1].boneId);
    HangsRight([h], t, j, k - 1);
    assert s[j + 1] == t[j] && s[k] == t[k - 1];
    assert HangsUnder(s, j + 1, k);
  }

  lemma PrependKeepsParent(bones: seq<Bone>, h: Line, t: seq<Line>, k: nat)
    requires StartsAt(t, h.level + 1)
    requires forall k :: 0 <= k < |t| && t[k].level == h.level + 1 ==> ParentOf(bones, h.boneId, t[k].boneId)
    requires DeepLinesUnderParent(bones, t, h.level + 1)
    requires 1 <= k <= |t|
    ensures UnderParent(bones, [h] + t, k)
    ensures ([h] + t)[k].level > h.level
  {
    var s := [h] + t;
    assert s[k] == t[k - 1];
    if t[k - 1].level == h.level + 1 {
      HangsUnderHead(h, t, k);
      assert s[0] == h && s[k] == t[k - 1];
      assert ParentOf(bones, s[0].boneId, s[k].boneId);
    } else {
      assert UnderParent(bones, t, k - 1);
      PrependShifts(bones, h, t, k);
    }
  }

  /** Putting the line of a parent bone in front of the runs of its
      children makes one tree. */
  lemma ParentsPrepend(bones: seq<Bone>, h: Line, t: seq<Line>)
    requires StartsAt(t, h.level + 1)
    requires forall k :: 0 <= k < |t| && t[k].level == h.level + 1 ==> ParentOf(bones, h.boneId, t[k].boneId)
    requires DeepLinesUnderParent(bones, t, h.level + 1)
    ensures TreeFrom(bones, [h] + t)
  {
    var s := [h] + t;
    forall k | 1 <= k < |s| ensures UnderParent(bones, s, k) && s[k].level > h.level {
      PrependKeepsParent(bones, h, t, k);
    }
  }

  /** Sibling order of a parent line followed by the runs of its children:
      the lines hanging under the parent line are its level-(m+1) lines. */
  lemma SiblingsPrepend(h: Line, t: seq<Line>)
    requires StartsAt(t, h.level + 1)
    requires SiblingsAscending(t) && LevelAscending(t, h.level + 1)
    ensures SiblingsAscending([h] + t)
  {
    var s := [h] + t;
    forall j, k1, k2 | HangsUnder(s, j, k1) && HangsUnder(s, j, k2) && k1 < k2
      ensures s[k1].boneId < s[k2].boneId
    {
      assert s[k1] == t[k1 - 1] && s[k2] == t[k2 - 1];
      if j == 0 {
        assert t[k1 - 1].level == h.level + 1 && t[k2 - 1].level == h.level + 1;
      } else {
        HangsRight([h], t, j - 1, k1 - 1);
        HangsRight([h], t, j - 1, k2 - 1);
      }
    }
  }

  /** The walk entered at `b` prints a tree: every line after the first
      hangs under its parent's line, and siblings are in ascending order. */
  lemma {:induction false} ShapeVisit(bones: seq<Bone>, children: seq<seq<nat>>, names: seq<string>, b: nat, level: nat)
    requires WalkTables(bones, children, names)
    requires DepthIs(bones, b, level)
    ensures TreeFrom(bones, Visit(bones, children, names, b, level))
    ensures SiblingsAscending(Visit(bones, children, names, b, level))
    decreases |bones| - level, 1, 0
  {
    DepthBound(bones, b, level);
    var h := Line(level, b, names[b]);
    var t := VisitChildren(bones, children, names, b, level, 0);
    assert Visit(bones, children, names, b, level) == [h] + t;
    ShapeChildren(bones, children, names, b, level, 0);
    forall k | 0 <= k < |t| && t[k].level == level + 1 ensures ParentOf(bones, b, t[k].boneId) {
      assert t[k].boneId in children[b];
    }
    ParentsPrepend(bones, h, t);
    SiblingsPrepend(h, t);
  }

  /** A run of sibling subtrees at level `m`: it starts at level `m`, its
      level-`m` lines name bones of `kids` no smaller than `lo`, in
      ascending order, and every deeper line hangs under its parent's line. */
  ghost predicate SiblingRun(bones: seq<Bone>, kids: seq<nat>, lo: nat, m: nat, t: seq<Line>) {
    && StartsAt(t, m)
    && (forall k :: 0 <= k < |t| && t[k].level == m ==> t[k].boneId in kids && t[k].boneId >= lo)
    && DeepLinesUnderParent(bones, t, m)
    && SiblingsAscending(t)
    && LevelAscending(t, m)
  }

  /** A subtree rooted at sibling `a` followed by a run of later siblings
      is again a run of siblings. */
  lemma RunStep(bones: seq<Bone>, kids: seq<nat>, a: nat, lo: nat, m: nat, v: seq<Line>, r: seq<Line>)
    requires a in kids
    requires TreeFrom(bones, v) && v[0].level == m && v[0].boneId == a && SiblingsAscending(v)
    requires SiblingRun(bones, kids, lo, m, r) && (|r| > 0 ==> a < lo)
    ensures SiblingRun(bones, kids, a, m, v + r)
  {
    var t := v + r;
    ParentsAppend(bones, v, r, m);
    SiblingsAppend(v, r, m);
    LevelAppend(v, r, m);
    forall k | 0 <= k < |t| && t[k].level == m ensures t[k].boneId in kids {
      if k >= |v| {
        assert t[k] == r[k - |v|];
      } else {
        assert t[k] == v[k];
      }
    }
    forall k | 0 <= k < |t| ensures t[k].level >= m {
      if k >= |v| {
        assert t[k] == r[k - |v|];
      } else {
        assert t[k] == v[k];
      }
    }
  }

  /** The walks of the children of `b` from list position `i` on form a run
      of siblings one level below `b`, drawn from b's children list. */
  lemma {:induction false} ShapeChildren(bones: seq<Bone>, children: seq<seq<nat>>, names: seq<string>, b: nat, level: nat, i: nat)
    requires WalkTables(bones, children, names)
    requires DepthIs(bones, b, level)
    requires i <= |children[b]|
    ensures SiblingRun(bones, children[b], if i < |children[b]| then children[b][i] else 0, level + 1,
                       VisitChildren(bones, children, names, b, level, i))
    decreases |bones| - level, 0, |children[b]| - i
  {
    var kids := children[b];
    if i < |kids| {
      var a := kids[i];
      ChildIsOneDeeper(bones, children, names, b, level, a);
      var v := Visit(bones, children, names, a, level + 1);
      var r := VisitChildren(bones, children, names, b, level, i + 1);
      assert VisitChildren(bones, children, names, b, level, i) == v + r;
      ShapeVisit(bones, children, names, a, level + 1);
      ShapeChildren(bones, children, names, b, level, i + 1);
      RunStep(bones, kids, a, if i + 1 < |kids| then kids[i + 1] else 0, level + 1, v, r);
    }
  }

  /** The outer loop from index `cb` on: it starts at level 0, its level-0
      lines are roots from `cb` on in ascending order, and every deeper line
      hangs under its parent's line. */
  lemma {:induction false} ShapeRoots(bones: seq<Bone>, children: seq<seq<nat>>, names: seq<string>, cb: nat)
    requires WalkTables(bones, children, names)
    requires cb <= |bones|
    ensures var u := EmitRoots(bones, children, names, cb);
            && StartsAt(u, 0)
            && (forall k :: 0 <= k < |u| && u[k].level == 0 ==> u[k].boneId >= cb)
            && DeepLinesUnderParent(bones, u, 0)
            && SiblingsAscending(u)
            && LevelAscending(u, 0)
    decreases |bones| - cb
  {
    if cb < |bones| {
      ShapeRoots(bones, children, names, cb + 1);
      if !bones[cb].hasParentBoneId {
        var v := Visit(bones, children, names, cb, 0);
        var r := EmitRoots(bones, children, names, cb + 1);
        assert EmitRoots(bones, children, names, cb) == v + r;
        ShapeVisit(bones, children, names, cb, 0);
        ParentsAppend(bones, v, r, 0);
        SiblingsAppend(v, r, 0);
        LevelAppend(v, r, 0);
      }
    }
  }

  /** The printed hierarchy is a preorder: every indented line hangs under
      the line of its parent bone, lines hanging under the same line are in
      ascending bone order, and the unindented lines (the roots) are in
      ascending bone order. */
  lemma PrintedShape(bones: seq<Bone>, entries: seq<NameEntry>)
    requires ValidParents(bones) && IdsInRange(entries, |bones|)
    ensures var lines := PrintBoneHierarchy(bones, entries);
            && (forall k :: 0 <= k < |lines| && lines[k].level > 0 ==> UnderParent(bones, lines, k))
            && SiblingsAscending(lines)
            && LevelAscending(lines, 0)
  {
    ShapeRoots(bones, BuildChildren(bones), InvertNames(entries, |bones|), 0);
  }
}
