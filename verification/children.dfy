/** The children table of the hierarchy printer: one list of child bone
    indices per bone, filled by a single forward scan over the bone array. */
module ChildrenTable {
  import opened Skeleton

  predicate StrictlyIncreasing(s: seq<nat>) {
    forall i, j :: 0 <= i < j < |s| ==> s[i] < s[j]
  }

  /** The table after the scan has visited bones 0 .. n-1: it starts with
      one empty list per bone, and every visited bone that has a parent is
      appended to its parent's list. */
  function ScanChildren(bones: seq<Bone>, n: nat): (table: seq<seq<nat>>)
    requires ValidParents(bones) && n <= |bones|
    ensures |table| == |bones|
    ensures forall p: nat, c: nat :: p < |bones| ==> (c in table[p] <==> c < n && ParentOf(bones, p, c))
    ensures forall p :: 0 <= p < |bones| ==> StrictlyIncreasing(table[p])
  {
    if n == 0 then
      var table: seq<seq<nat>> := seq(|bones|, _ => []);
      assert forall p :: 0 <= p < |bones| ==> table[p] == [];
      table
    else
      var table := ScanChildren(bones, n - 1);
      var bone := bones[n - 1];
      if bone.hasParentBoneId then
        var p := bone.parentBoneId;
        assert p < |bones|;
        var siblings := table[p];
        assert forall i :: 0 <= i < |siblings| ==> siblings[i] < n - 1 by {
          forall i | 0 <= i < |siblings| ensures siblings[i] < n - 1 {
            var c := siblings[i];
            assert c in table[p];
          }
        }
        table[bone.parentBoneId := siblings + [n - 1]]
      else table
  }

  /** The complete children table: list `p` holds exactly the bones whose
      parent is `p`, in ascending index order. */
  function BuildChildren(bones: seq<Bone>): (table: seq<seq<nat>>)
    requires ValidParents(bones)
    ensures |table| == |bones|
    ensures forall p: nat, c: nat :: p < |bones| ==> (c in table[p] <==> ParentOf(bones, p, c))
    ensures forall p :: 0 <= p < |bones| ==> StrictlyIncreasing(table[p])
  {
    ScanChildren(bones, |bones|)
  }

  lemma {:induction false} IncreasingOccursOnce(s: seq<nat>, x: nat)
    requires StrictlyIncreasing(s) && x in s
    ensures multiset(s)[x] == 1
  {
    if s[0] == x {
      assert s == [s[0]] + s[1..];
      assert x !in s[1..];
    } else {
      assert s == [s[0]] + s[1..];
      IncreasingOccursOnce(s[1..], x);
    }
  }

  /** A bone with a parent is listed exactly once, in its parent's list,
      and in no other list of the table. */
  lemma ChildListedOnce(bones: seq<Bone>, c: nat)
    requires ValidParents(bones) && c < |bones| && bones[c].hasParentBoneId
    ensures multiset(BuildChildren(bones)[bones[c].parentBoneId])[c] == 1
    ensures forall p :: 0 <= p < |bones| && p != bones[c].parentBoneId ==> c !in BuildChildren(bones)[p]
  {
    IncreasingOccursOnce(BuildChildren(bones)[bones[c].parentBoneId], c);
  }
}
