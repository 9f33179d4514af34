/** The bone array of a skeletal animation model, reduced to what the
    hierarchy printer reads: whether a bone has a parent and the parent's
    index. Bones live in a flat array and refer to their parent by index. */
module Skeleton {

  /** One bone record: `hasParentBoneId` is false for a root bone, and
      `parentBoneId` is meaningful only when it is true. */
  datatype Bone = Bone(hasParentBoneId: bool, parentBoneId: nat)

  /** Every parent index stored in the array points back into the array.
      Indexing the children table by a parent index is only defined then. */
  predicate ValidParents(bones: seq<Bone>) {
    forall b :: 0 <= b < |bones| && bones[b].hasParentBoneId ==> bones[b].parentBoneId < |bones|
  }

  /** Every parent precedes its children in the array. This is an
      assumption about the input that the hierarchy printer does not rely
      on; bone arrays that break it are modelled too. */
  predicate ParentsFirst(bones: seq<Bone>) {
    forall b :: 0 <= b < |bones| && bones[b].hasParentBoneId ==> bones[b].parentBoneId < b
  }

  /** Bone `p` is the parent of bone `c`. */
  predicate ParentOf(bones: seq<Bone>, p: nat, c: nat) {
    c < |bones| && bones[c].hasParentBoneId && bones[c].parentBoneId == p
  }

  /** Bone `b` exists and following its parent links exactly `d` times ends
      at a bone without a parent. Parent links that form a cycle never
      reach a root, so bones on or below a cycle have no depth at all. */
  predicate DepthIs(bones: seq<Bone>, b: nat, d: nat)
    decreases d
  {
    && b < |bones|
    && if d == 0 then !bones[b].hasParentBoneId
       else bones[b].hasParentBoneId && DepthIs(bones, bones[b].parentBoneId, d - 1)
  }

  /** The parent chain of `b` reaches a root. */
  ghost predicate Connected(bones: seq<Bone>, b: nat) {
    exists d :: DepthIs(bones, b, d)
  }

  /** When parents come first, every bone's parent chain reaches a root. */
  lemma {:induction false} ParentsFirstConnected(bones: seq<Bone>, b: nat)
    requires ParentsFirst(bones) && b < |bones|
    ensures Connected(bones, b)
    decreases b
  {
    if !bones[b].hasParentBoneId {
      assert DepthIs(bones, b, 0);
    } else {
      var p := bones[b].parentBoneId;
      ParentsFirstConnected(bones, p);
      var d: nat :| DepthIs(bones, p, d);
      assert DepthIs(bones, b, d + 1);
    }
  }

  /** A bone has at most one depth: parent links are a function. */
  lemma {:induction false} DepthUnique(bones: seq<Bone>, b: nat, d1: nat, d2: nat)
    requires DepthIs(bones, b, d1) && DepthIs(bones, b, d2)
    ensures d1 == d2
    decreases d1
  {
    if d1 != 0 && d2 != 0 {
      DepthUnique(bones, bones[b].parentBoneId, d1 - 1, d2 - 1);
    }
  }

  /** The depth of a connected bone. */
  ghost function Depth(bones: seq<Bone>, b: nat): (d: nat)
    requires Connected(bones, b)
    ensures DepthIs(bones, b, d)
  {
    var d :| DepthIs(bones, b, d); d
  }

  lemma DepthOf(bones: seq<Bone>, b: nat, d: nat)
    requires DepthIs(bones, b, d)
    ensures Connected(bones, b) && Depth(bones, b) == d
  {
    DepthUnique(bones, b, d, Depth(bones, b));
  }

  /** The ancestor of `b` that sits at depth `l`, for a bone at depth `d`. */
  function AncestorAt(bones: seq<Bone>, b: nat, d: nat, l: nat): (a: nat)
    requires DepthIs(bones, b, d) && l <= d
    ensures DepthIs(bones, a, l)
    decreases d
  {
    if l == d then b else AncestorAt(bones, bones[b].parentBoneId, d - 1, l)
  }

  /** Going one level up the ancestor chain is following one parent link. */
  lemma {:induction false} AncestorParent(bones: seq<Bone>, b: nat, d: nat, l: nat)
    requires DepthIs(bones, b, d) && l < d
    ensures bones[AncestorAt(bones, b, d, l + 1)].hasParentBoneId
    ensures bones[AncestorAt(bones, b, d, l + 1)].parentBoneId == AncestorAt(bones, b, d, l)
    decreases d
  {
    if l + 1 < d {
      AncestorParent(bones, bones[b].parentBoneId, d - 1, l);
    }
  }

  /** The ancestors of `b` at levels 0 .. k-1, collected into a set. */
  ghost function AncestorSet(bones: seq<Bone>, b: nat, d: nat, k: nat): (s: set<nat>)
    requires DepthIs(bones, b, d) && k <= d + 1
    ensures |s| == k
    ensures forall a :: a in s ==> a < |bones| && Connected(bones, a) && Depth(bones, a) < k
  {
    if k == 0 then {}
    else
      var prev := AncestorSet(bones, b, d, k - 1);
      var top := AncestorAt(bones, b, d, k - 1);
      AddAncestor(bones, prev, top, k - 1);
      prev + {top}
  }

  /** A bone at depth `l` is new to a set of bones that all lie above
      depth `l`, and the enlarged set lies above depth `l + 1`. */
  lemma AddAncestor(bones: seq<Bone>, prev: set<nat>, top: nat, l: nat)
    requires forall a :: a in prev ==> a < |bones| && Connected(bones, a) && Depth(bones, a) < l
    requires DepthIs(bones, top, l)
    ensures top !in prev && |prev + {top}| == |prev| + 1
    ensures forall a :: a in prev + {top} ==> a < |bones| && Connected(bones, a) && Depth(bones, a) < l + 1
  {
    DepthOf(bones, top, l);
  }

  /** The bone indices 0 .. n-1 as a set. */
  ghost function IndexSet(n: nat): (s: set<nat>)
    ensures |s| == n
    ensures forall x: nat :: x in s <==> x < n
  {
    if n == 0 then {} else IndexSet(n - 1) + {n - 1}
  }

  /** A bone with a depth is fewer than |bones| links below its root: its
      ancestors are pairwise distinct bones, one per level. This bounds the
      recursion depth of the hierarchy walk. */
  lemma DepthBound(bones: seq<Bone>, b: nat, d: nat)
    requires DepthIs(bones, b, d)
    ensures d < |bones|
  {
    var chain := AncestorSet(bones, b, d, d + 1);
    SubsetSize(chain, IndexSet(|bones|));
  }

  lemma SubsetSize<T>(a: set<T>, b: set<T>)
    requires a <= b
    ensures |a| <= |b|
  {
    assert b == a + (b - a);
  }
}
