# Bone hierarchy printer of the skeletal animation examples

This project is a Dafny model of `printBoneHierarchy`, example 5 of the SFML
examples of the Skeletal-Animation-Library. The function takes a skeletal
animation model and writes its bones as an indented tree, one line per bone
(`boneId boneName`). It does this in four steps:

1. It scans the bone array once to build a table of child lists. List `p`
   receives, in index order, every bone whose `parentBoneId` is `p`.
2. It inverts the model's name→id map into an id→name table. Bones the map
   does not name keep an empty name.
3. It walks depth-first from a bone. The walk writes `2 * level` spaces, the
   bone index, a space, the name and a newline, then walks each child one
   level deeper.
4. It starts that walk at level 0 from every bone without a parent, in
   index order.

The model is organised as follows:

- `Skeleton` holds the bone array and depths. A bone's depth is the number
  of parent links from it to a root.
- `ChildrenTable` holds step 1.
- `NameTable` holds step 2.
- `Hierarchy` holds steps 3 and 4. The output is a sequence of
  `Line(level, boneId, name)` values.
- `Format` turns the lines into text and parses the text back.
- `WalkCount` proves which bones are printed and how often.
- `WalkShape` proves that the indentation encodes the parent links.
- `Example` is a worked skeleton with a parent cycle.

Modelling decisions:

- The name→id map is given as its entries in the order the container
  iterates them. Later entries overwrite earlier ones, as the loop does.
- Two indexings are undefined behaviour in C++, so they are preconditions
  (`ValidParents`, `IdsInRange`) rather than error results:
  - a `parentBoneId` outside the array;
  - a map id outside the array.
- The walk is entered only at roots, with level 0. So every bone it visits
  is exactly `level` parent links below a root. That bounds the recursion
  depth by the number of bones, even when parent links form a cycle.
- Bones on a cycle, or below one, are never reached. They are simply not
  printed.
- The library's design calls for an acyclic hierarchy in which every
  parent index is below its child's index. The printer neither checks nor
  relies on this, so the model does not assume it. For arrays that satisfy
  it (`ParentsFirst`), every bone is printed exactly once.

## Model

| member | source | states |
|---|---|---|
| Skeleton.DepthBound | sfml_examples.cpp:152-158 | a bone that is `d` parent links below a root has `d < |bones|`, because its ancestors are distinct bones; so the recursion of the walk is bounded by the number of bones |
| Skeleton.DepthUnique | sfml_examples.cpp:141-142 | each bone has a single parent field, so a bone has at most one depth below a root |
| ChildrenTable.ScanChildren | sfml_examples.cpp:139-144 | after the scan has passed bones `0..n-1`, list `p` contains a bone `c` exactly when `c < n` and the parent of `c` is `p`, and every list is strictly ascending |
| ChildrenTable.BuildChildren | sfml_examples.cpp:139-144 | the finished table has one list per bone; list `p` contains exactly the bones whose parent is `p`, in strictly ascending order |
| ChildrenTable.ChildListedOnce | sfml_examples.cpp:140-143 | a bone with a parent occurs exactly once in its parent's list and in no other list |
| NameTable.InvertNames | sfml_examples.cpp:147-150 | the id→name table has one slot per bone: a slot no entry names is empty, the slot of an id holds the name of the last entry for that id, and every non-empty slot holds a name the map gives to that id |
| NameTable.InvertIsInverse | sfml_examples.cpp:147-150 | when no two map entries share an id, the table gives back each entry's name at its id, in any iteration order |
| Hierarchy.ChildIsOneDeeper | sfml_examples.cpp:156-157 | a bone taken from the child list of a bone at depth `level` is a real bone whose parent is that bone, and it sits at depth `level + 1 < |bones|` |
| Hierarchy.Visit | sfml_examples.cpp:152-158 | the walk entered at bone `b` emits `b` first, at its own level, then only deeper lines; every line names a bone at a depth equal to its level, with that bone's name from the table |
| Hierarchy.VisitChildren | sfml_examples.cpp:156-158 | the walks of the children of `b` emit only lines deeper than `b`, each at the depth of the bone it names, with its name |
| Hierarchy.EmitRoots | sfml_examples.cpp:160-164 | the outer loop emits only lines whose level is the depth of their bone below a root, carrying that bone's name |
| Hierarchy.PrintBoneHierarchy | sfml_examples.cpp:137-165 | every printed line names a bone, its name from the inverted map, and an indentation level equal to the bone's depth |
| WalkCount.CountVisit | sfml_examples.cpp:152-158 | the walk entered at `b` emits each bone of b's subtree exactly once and no other bone |
| WalkCount.CountChildren | sfml_examples.cpp:156-158 | the walks of the children of `b` from list position `i` on emit exactly once each bone whose ancestor one level below `b` is one of those children |
| WalkCount.CountRoots | sfml_examples.cpp:160-164 | the outer loop from index `cb` on emits exactly once each bone whose root has index `cb` or more, and nothing else |
| WalkCount.PrintedOnce | sfml_examples.cpp:137-165 | every bone whose parent chain reaches a root is printed exactly once; a bone on or below a parent cycle is never printed |
| WalkCount.PrintedOnceWhenParentsFirst | sfml_examples.cpp:137-165 | for a bone array in which every parent precedes its children, every bone is printed exactly once |
| WalkShape.ShapeVisit | sfml_examples.cpp:152-158 | the walk entered at `b` prints a tree: every later line is deeper than the first and hangs under the line of its parent bone, and lines under the same line are in ascending bone order |
| WalkShape.ShapeChildren | sfml_examples.cpp:156-158 | the walks of the children of `b` form a run one level below `b`: its top lines are children of `b` in ascending order, and every deeper line hangs under its parent's line |
| WalkShape.ShapeRoots | sfml_examples.cpp:160-164 | the outer loop prints roots at level 0 in ascending index order, and every indented line hangs under its parent's line |
| WalkShape.PrintedShape | sfml_examples.cpp:137-165 | in the printed hierarchy, each indented line sits under the nearest earlier less-indented line, which is one level shallower and names its parent; siblings and roots appear in ascending index order |
| Format.DecimalOf | sfml_examples.cpp:155 | a bone index is written as at least one decimal digit, with no leading zero except for index 0 |
| Format.DecimalRoundTrip | sfml_examples.cpp:155 | reading the written digits back gives the bone index |
| Format.RenderLine | sfml_examples.cpp:153-155 | the line written for one bone (`2 * level` spaces, index, space, name, newline) parses back to its level, index and name, whatever the name contains |
| Format.TextRoundTrip | sfml_examples.cpp:153-155 | when no name contains a newline, the concatenated lines parse back to the same sequence of lines |
| Format.PrintedText | sfml_examples.cpp:137-165 | the whole text written to standard output; when no name in the map contains a newline, it parses back to exactly the emitted lines |
| Example.CycleIsSkipped | sfml_examples.cpp:139-164 | for a five-bone skeleton with a root, an arm, a hand and two bones that are each other's parent, the output is `0 root`, `  1 arm`, `    4 hand`, and the two cycle bones are omitted |

## Left out

- `SFMLMaterial` (sfml_examples.cpp:21-46) is left out: it loads textures through SFML and OpenGL.
- Examples 1 to 4 (sfml_examples.cpp:48-133) are left out: they draw frames with OpenGL.
- `SFMLApplication` and `main` (sfml_examples.cpp:168-272) are left out: they are windowing, event handling and timing code.
- `skeletal_animation_model.hpp` is not part of this model. The bone record and the name→id map are reduced to what the printer reads.
- The map's iteration order is not modelled. It is a parameter: the entries are given in the order the container yields them.
- The counters `cb`, `c` and `level` are 32-bit unsigned in the source; their wrap-around is not modelled. The model matches the source for arrays of fewer than 2^32 bones. With more, `cb` wraps and the loops at sfml_examples.cpp:140 and sfml_examples.cpp:160 never terminate, which is not modelled.
- `std::endl` flushes the stream; flushing and any output failure are I/O and are not modelled. `std::cout` is modelled as the returned text.
- A parent index or map id outside the bone array is undefined behaviour in the source. The model excludes it by precondition instead of giving it a meaning.
- Format.TextRoundTrip: this holds only when no bone name contains a newline, because such a name makes the printed text ambiguous. Single lines (Format.RenderLine) round-trip for every name.
