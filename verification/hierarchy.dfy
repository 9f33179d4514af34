/** The bone hierarchy printer: a depth-first walk from every root bone,
    in bone-index order, that emits one line per visited bone. The lines are
    returned as data; module Format turns them into text. */
module Hierarchy {
  import opened Skeleton
  import opened ChildrenTable
  import opened NameTable

  /** One emitted line: the bone's indentation level, its index and name. */
  datatype Line = Line(level: nat, boneId: nat, name: string)

  /** The tables the walk reads were built from this bone array. */
  predicate WalkTables(bones: seq<Bone>, children: seq<seq<nat>>, names: seq<string>) {
    && ValidParents(bones)
    && children == BuildChildren(bones)
    && |names| == |bones|
  }

  /** Every line names an existing bone, with that bone's name, at a level
      equal to the bone's depth below its root. */
  predicate LinesAtDepth(bones: seq<Bone>, names: seq<string>, lines: seq<Line>)
    requires |names| == |bones|
  {
    forall k :: 0 <= k < |lines| ==>
      && DepthIs(bones, lines[k].boneId, lines[k].level)
      && lines[k].name == names[lines[k].boneId]
  }

  /** A bone in the children list of `b` is one level deeper than `b`. */
  lemma ChildIsOneDeeper(bones: seq<Bone>, children: seq<seq<nat>>, names: seq<string>, b: nat, level: nat, c: nat)
    requires WalkTables(bones, children, names)
    requires DepthIs(bones, b, level)
    requires c in children[b]
    ensures c < |bones| && bones[c].hasParentBoneId && bones[c].parentBoneId == b
    ensures DepthIs(bones, c, level + 1) && level + 1 < |bones|
  {
    DepthBound(bones, c, level + 1);
  }

  /** The recursive emitter: the line of bone `b` at `level`, then the
      subtree of each child in children-list order, one level deeper.
      It is only ever entered at a root with level 0, so `b` is `level`
      links below a root; that bounds the recursion by |bones|. */
  function Visit(bones: seq<Bone>, children: seq<seq<nat>>, names: seq<string>, b: nat, level: nat): (lines: seq<Line>)
    requires WalkTables(bones, children, names)
    requires DepthIs(bones, b, level)
    ensures |lines| >= 1 && lines[0].boneId == b && lines[0].level == level
    ensures forall k :: 1 <= k < |lines| ==> lines[k].level > level
    ensures LinesAtDepth(bones, names, lines)
    decreases |bones| - level, 1, 0
  {
    DepthBound(bones, b, level);
    [Line(level, b, names[b])] + VisitChildren(bones, children, names, b, level, 0)
  }

  /** The subtrees of the children of `b` from position `i` of its list on. */
  function VisitChildren(bones: seq<Bone>, children: seq<seq<nat>>, names: seq<string>, b: nat, level: nat, i: nat): (lines: seq<Line>)
    requires WalkTables(bones, children, names)
    requires DepthIs(bones, b, level)
    requires i <= |children[b]|
    ensures forall k :: 0 <= k < |lines| ==> lines[k].level > level
    ensures LinesAtDepth(bones, names, lines)
    decreases |bones| - level, 0, |children[b]| - i
  {
    if i == |children[b]| then []
    else
      var c := children[b][i];
      ChildIsOneDeeper(bones, children, names, b, level, c);
      Visit(bones, children, names, c, level + 1) + VisitChildren(bones, children, names, b, level, i + 1)
  }

  /** The outer loop: every bone from index `cb` on that has no parent
      starts a walk at level 0. */
  function EmitRoots(bones: seq<Bone>, children: seq<seq<nat>>, names: seq<string>, cb: nat): (lines: seq<Line>)
    requires WalkTables(bones, children, names)
    requires cb <= |bones|
    ensures LinesAtDepth(bones, names, lines)
    decreases |bones| - cb
  {
    if cb == |bones| then []
    else if !bones[cb].hasParentBoneId then
      Visit(bones, children, names, cb, 0) + EmitRoots(bones, children, names, cb + 1)
    else
      EmitRoots(bones, children, names, cb + 1)
  }

  /** The whole printer: build the children table and the id→name table,
      then walk from every root in index order. */
  function PrintBoneHierarchy(bones: seq<Bone>, entries: seq<NameEntry>): (lines: seq<Line>)
    requires ValidParents(bones)
    requires IdsInRange(entries, |bones|)
    ensures LinesAtDepth(bones, InvertNames(entries, |bones|), lines)
  {
    EmitRoots(bones, BuildChildren(bones), InvertNames(entries, |bones|), 0)
  }

  /** The bone indices of a sequence of lines. */
  function Ids(lines: seq<Line>): (ids: seq<nat>)
    ensures |ids| == |lines|
    ensures forall k :: 0 <= k < |lines| ==> ids[k] == lines[k].boneId
  {
    seq(|lines|, k requires 0 <= k < |lines| => lines[k].boneId)
  }
}
