/**
 * The value held by a bone table: the keys in insertion order (Python dictionaries keep it)
 * and the bone stored under each key. A key need not equal its bone's `name`: a bone can be
 * renamed after it is stored, and `new_bone_by_fraction` stores a bone under a shorter key.
 */
module Tables {
  import opened Util
  import opened MetaBones

  datatype BoneTable = BoneTable(order: seq<string>, bones: map<string, MetaBone>)

  /** The order lists every key exactly once. */
  ghost predicate WellFormed(t: BoneTable)
  {
    && Distinct(t.order)
    && (forall k :: k in t.bones <==> k in t.order)
  }

  const EmptyTable: BoneTable := BoneTable([], map[])

  lemma EmptyTableWellFormed()
    ensures WellFormed(EmptyTable)
  {
  }

  /** Item lookup: the bone stored under `key`, or `None` when there is none (no error). */
  function Lookup(t: BoneTable, key: string): (r: Option<MetaBone>)
    ensures r.Some? <==> key in t.bones
    ensures r.Some? ==> r.value == t.bones[key]
  {
    if key in t.bones then Some(t.bones[key]) else None
  }

  function DuplicateKeyMessage(key: string): string
  {
    "Cannot add metabone with name " + key + "! Already exists!"
  }

  /** Item assignment: refuses a key that is already present and otherwise appends it. */
  function Insert(t: BoneTable, key: string, bone: MetaBone): (r: Result<BoneTable>)
    requires WellFormed(t)
    ensures r.Success? <==> key !in t.bones
    ensures r.Failure? ==> r.error == DuplicateKeyMessage(key)
    ensures r.Success? ==>
              && WellFormed(r.value)
              && r.value.order == t.order + [key]
              && r.value.bones == t.bones[key := bone]
  {
    if key in t.bones then
      Failure(DuplicateKeyMessage(key))
    else
      DistinctAppend(t.order, key);
      Success(BoneTable(t.order + [key], t.bones[key := bone]))
  }

  /** Replaces the bone stored under an existing key; the keys and their order stay as they are. */
  function Update(t: BoneTable, key: string, bone: MetaBone): (r: BoneTable)
    requires key in t.bones
    ensures r.order == t.order && r.bones.Keys == t.bones.Keys
    ensures r.bones[key] == bone
    ensures forall k :: k in t.bones && k != key ==> r.bones[k] == t.bones[k]
  {
    BoneTable(t.order, t.bones[key := bone])
  }

  /** The name under which a constraint endpoint is sent to the host: the referenced bone's current name. */
  function ResolveName(t: BoneTable, key: string): string
  {
    if key in t.bones then t.bones[key].name else key
  }
}
