/** The id→name table of the hierarchy printer, obtained by inverting the
    model's name→id map. The map is given as its entries in the order the
    container iterates them; each entry overwrites the slot of its id. */
module NameTable {

  datatype NameEntry = NameEntry(name: string, boneId: nat)

  /** Every id in the map indexes a bone; writing the slot of an id outside
      the table is undefined in the source, so callers must rule it out. */
  predicate IdsInRange(entries: seq<NameEntry>, n: nat) {
    forall i :: 0 <= i < |entries| ==> entries[i].boneId < n
  }

  /** Entry `i` is the last one that names its bone id. */
  predicate LastForId(entries: seq<NameEntry>, i: nat)
    requires i < |entries|
  {
    forall j :: i < j < |entries| ==> entries[j].boneId != entries[i].boneId
  }

  /** No entry names bone `id`. */
  predicate Unnamed(entries: seq<NameEntry>, id: nat) {
    forall i :: 0 <= i < |entries| ==> entries[i].boneId != id
  }

  /** Some entry maps `name` to bone `id`. */
  ghost predicate NamedAs(entries: seq<NameEntry>, id: nat, name: string) {
    exists i :: 0 <= i < |entries| && entries[i].boneId == id && entries[i].name == name
  }

  /** One string per bone, initially empty; each entry, in iteration order,
      stores its name in the slot of its id. A slot therefore ends up with
      the name of the last entry for that id, or empty if there is none. */
  function InvertNames(entries: seq<NameEntry>, n: nat): (table: seq<string>)
    requires IdsInRange(entries, n)
    ensures |table| == n
    ensures forall id: nat :: id < n && Unnamed(entries, id) ==> table[id] == ""
    ensures forall i: nat :: i < |entries| && LastForId(entries, i) ==> table[entries[i].boneId] == entries[i].name
    ensures forall id :: 0 <= id < n && table[id] != "" ==> NamedAs(entries, id, table[id])
    decreases |entries|
  {
    if |entries| == 0 then seq(n, _ => "")
    else
      var last := entries[|entries| - 1];
      var table := InvertNames(entries[..|entries| - 1], n);
      InvertStep(entries, n, table);
      table[last.boneId := last.name]
  }

  /** Storing the last entry on top of the table of all earlier entries
      keeps the three properties of the table. */
  lemma InvertStep(entries: seq<NameEntry>, n: nat, table: seq<string>)
    requires |entries| > 0 && IdsInRange(entries, n) && |table| == n
    requires var prefix := entries[..|entries| - 1];
             && (forall id: nat :: id < n && Unnamed(prefix, id) ==> table[id] == "")
             && (forall i: nat :: i < |prefix| && LastForId(prefix, i) ==> table[prefix[i].boneId] == prefix[i].name)
             && (forall id :: 0 <= id < n && table[id] != "" ==> NamedAs(prefix, id, table[id]))
    ensures var last := entries[|entries| - 1];
            var t := table[last.boneId := last.name];
            && (forall id: nat :: id < n && Unnamed(entries, id) ==> t[id] == "")
            && (forall i: nat :: i < |entries| && LastForId(entries, i) ==> t[entries[i].boneId] == entries[i].name)
            && (forall id :: 0 <= id < n && t[id] != "" ==> NamedAs(entries, id, t[id]))
  {
    var prefix := entries[..|entries| - 1];
    var last := entries[|entries| - 1];
    var t := table[last.boneId := last.name];
    forall id: nat | id < n && Unnamed(entries, id) ensures t[id] == "" {
      assert Unnamed(prefix, id) by {
        forall i | 0 <= i < |prefix| ensures prefix[i].boneId != id {
          assert prefix[i] == entries[i];
        }
      }
      assert last.boneId != id;
    }
    forall i: nat | i < |entries| && LastForId(entries, i) ensures t[entries[i].boneId] == entries[i].name {
      if i < |prefix| {
        assert prefix[i] == entries[i];
        assert LastForId(prefix, i) by {
          forall j | i < j < |prefix| ensures prefix[j].boneId != prefix[i].boneId {
            assert prefix[j] == entries[j];
          }
        }
        assert entries[i].boneId != last.boneId;
      }
    }
    forall id | 0 <= id < n && t[id] != "" ensures NamedAs(entries, id, t[id]) {
      if id == last.boneId {
        assert entries[|entries| - 1].boneId == id && entries[|entries| - 1].name == t[id];
      } else {
        var i :| 0 <= i < |prefix| && prefix[i].boneId == id && prefix[i].name == table[id];
        assert entries[i] == prefix[i];
      }
    }
  }

  /** No two entries share an id: the map is injective. */
  predicate DistinctIds(entries: seq<NameEntry>) {
    forall i, j :: 0 <= i < j < |entries| ==> entries[i].boneId != entries[j].boneId
  }

  /** For an injective map the table is its inverse: every bone named in
      the map gets its own name back, whatever the iteration order. */
  lemma InvertIsInverse(entries: seq<NameEntry>, n: nat)
    requires IdsInRange(entries, n) && DistinctIds(entries)
    ensures forall i :: 0 <= i < |entries| ==> InvertNames(entries, n)[entries[i].boneId] == entries[i].name
  {
    forall i | 0 <= i < |entries|
      ensures InvertNames(entries, n)[entries[i].boneId] == entries[i].name
    {
      assert LastForId(entries, i);
    }
  }
}
