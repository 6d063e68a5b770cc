/** XmlAttributeDefinitionDao: storing, removing and looking up the attribute definitions of a tag. */
module XmlAttributeDefinitionDao {
  import opened Wrappers
  import opened Text
  import opened Seqs
  import opened Identity
  import opened Entities
  import opened Rows

  /** The columns of a stored attribute definition besides its keys; `tagId` is the
    * `tag_definition_id` foreign key. */
  datatype AttributeData = AttributeData(tagId: Option<int>, name: string, required: Option<bool>)

  type AttributeRow = Row<AttributeData>
  type AttributeTable = Table<AttributeData>

  /** The unique index on (tag_definition_id, name); a null tag takes part in no clash. */
  function TagAndName(d: AttributeData): Option<(int, string)> {
    if d.tagId.Some? then Some((d.tagId.value, d.name)) else None
  }

  ghost predicate Valid(t: AttributeTable)
    reads t
  {
    TableInvariant(t.rows, t.nextId, TagAndName)
  }

  /** `isTransient`: the definition has never been stored. */
  predicate IsTransient(a: XmlAttributeDefinition)
    reads a
  {
    a.id.None?
  }

  /** The row a definition is written as: a null name violates NOT NULL, and a tag that has no
    * primary key yet cannot be referenced. */
  function ColumnsOf(a: XmlAttributeDefinition): Result<AttributeData, DaoError>
    reads a, a.tagDefinition
  {
    if a.name.None? then Failure(ConstraintViolation)
    else if a.tagDefinition != null && a.tagDefinition.id.None? then Failure(TransientReference)
    else Success(AttributeData(if a.tagDefinition == null then None else a.tagDefinition.id, a.name.value, a.required))
  }

  /** `persist`: a missing UUID is assigned first (and stays assigned when the insert fails); the
    * definition then becomes a new row, unless it is already stored or breaks a constraint. */
  method Persist(t: AttributeTable, a: XmlAttributeDefinition, gen: UuidSource) returns (r: Outcome<DaoError>)
    requires Valid(t) && gen.Valid()
    modifies t, a`uuid, a`id, gen
    ensures Valid(t) && gen.Valid()
    ensures old(a.uuid).Some? ==> a.uuid == old(a.uuid)
    ensures old(a.uuid).None? ==> a.uuid.Some? && a.uuid.value !in old(gen.issued)
    ensures r.Pass? <==> old(a.id).None? && ColumnsOf(a).Success?
                         && Admits(old(t.rows), None, a.uuid, ColumnsOf(a).value, TagAndName)
    ensures r.Pass? ==> a.id == Some(old(t.nextId))
                        && t.rows == old(t.rows) + [Row(old(t.nextId), a.uuid, ColumnsOf(a).value)]
    ensures r.Fail? ==> a.id == old(a.id) && t.rows == old(t.rows)
    ensures old(a.id).Some? ==> r == Fail(DetachedEntity)
    ensures old(a.id).None? && ColumnsOf(a).Failure? ==> r == Fail(ColumnsOf(a).error)
  {
    if a.uuid.None? {
      var u := gen.Next();
      a.SetUuid(Some(u));
    }
    if a.id.Some? {
      return Fail(DetachedEntity);
    }
    var columns := ColumnsOf(a);
    if columns.Failure? {
      return Fail(columns.error);
    }
    if !Admits(t.rows, None, a.uuid, columns.value, TagAndName) {
      return Fail(ConstraintViolation);
    }
    var id := Insert(t, a.uuid, columns.value, TagAndName);
    a.id := Some(id);
    r := Pass;
  }

  /** `merge`: the state of a stored definition overwrites its row and the stored row is returned;
    * a definition without primary key is stored as a new row and stays transient itself; a primary
    * key that no row has is a stale object. */
  method Merge(t: AttributeTable, a: XmlAttributeDefinition) returns (r: Result<AttributeRow, DaoError>)
    requires Valid(t)
    modifies t
    ensures Valid(t)
    ensures a.id.Some? && RowWithId(old(t.rows), a.id).None? ==> r == Failure(StaleEntity)
    ensures r.Success? ==> ColumnsOf(a).Success? && r.value.data == ColumnsOf(a).value && r.value.uuid == a.uuid
    ensures r.Success? && a.id.Some? ==> r.value.id == a.id.value
                                         && t.rows == ReplaceRow(old(t.rows), r.value)
    ensures r.Success? && a.id.None? ==> r.value.id == old(t.nextId) && t.rows == old(t.rows) + [r.value]
    ensures r.Failure? ==> t.rows == old(t.rows) && t.nextId == old(t.nextId)
    ensures (a.id.None? || RowWithId(old(t.rows), a.id).Some?) && ColumnsOf(a).Failure? ==> r == Failure(ColumnsOf(a).error)
    ensures (a.id.None? || RowWithId(old(t.rows), a.id).Some?) && ColumnsOf(a).Success? ==>
              (r.Success? <==> Admits(old(t.rows), a.id, a.uuid, ColumnsOf(a).value, TagAndName))
              && (r.Failure? ==> r.error == ConstraintViolation)
  {
    if a.id.Some? && FindById(t, a.id).None? {
      return Failure(StaleEntity);
    }
    var columns := ColumnsOf(a);
    if columns.Failure? {
      return Failure(columns.error);
    }
    if !Admits(t.rows, a.id, a.uuid, columns.value, TagAndName) {
      return Failure(ConstraintViolation);
    }
    if a.id.None? {
      var id := Insert(t, a.uuid, columns.value, TagAndName);
      r := Success(Row(id, a.uuid, columns.value));
    } else {
      Update(t, a.id.value, a.uuid, columns.value, TagAndName);
      r := Success(Row(a.id.value, a.uuid, columns.value));
    }
  }

  /** `remove`: the definition is merged and the merged copy deleted, in one transaction. Java takes
    * the merged copy out of the attribute list of the merged copy's tag, the list the database
    * yields for that tag ordered by name; the caller's own objects are left as they are. For a
    * stored definition the merge writes nothing: exactly its row goes, and a primary key that no
    * row has is a stale object. A transient definition is inserted by the merge and deleted again,
    * so the rows end as they were; an insert that breaks a constraint fails with the insert's
    * error. Either way the tag's attributes, as the database yields them, afterwards are its former
    * attributes without this one, in their former order. A definition with no tag fails with a
    * null reference once the merge has succeeded, and every failure rolls back the rows. */
  method Remove(t: AttributeTable, a: XmlAttributeDefinition) returns (r: Outcome<DaoError>)
    requires Valid(t)
    modifies t
    ensures Valid(t)
    ensures a.id.Some? ==> (r.Pass? <==> RowWithId(old(t.rows), a.id).Some? && a.tagDefinition != null)
    ensures a.id.Some? && RowWithId(old(t.rows), a.id).None? ==> r == Fail(StaleEntity)
    ensures a.id.None? ==> (r.Pass? <==> ColumnsOf(a).Success? && a.tagDefinition != null
                                         && Admits(old(t.rows), None, a.uuid, ColumnsOf(a).value, TagAndName))
    ensures a.id.None? && ColumnsOf(a).Failure? ==> r == Fail(ColumnsOf(a).error)
    ensures a.id.None? && ColumnsOf(a).Success? && !Admits(old(t.rows), None, a.uuid, ColumnsOf(a).value, TagAndName) ==>
              r == Fail(ConstraintViolation)
    ensures r.Fail? ==> t.rows == old(t.rows) && t.nextId == old(t.nextId)
    ensures r.Pass? ==> t.rows == DeleteWhere(old(t.rows), HasId(a.id))
    ensures r.Pass? ==> FindAll(t, a.tagDefinition.id) == DeleteWhere(old(FindAll(t, a.tagDefinition.id)), HasId(a.id))
  {
    if a.id.None? {
      r := RemoveTransient(t, a);
      return;
    }
    if FindById(t, a.id).None? {
      return Fail(StaleEntity);
    }
    if a.tagDefinition == null {
      return Fail(NullReference);
    }
    DeleteFromTag(t, a.id, a.tagDefinition.id);
    r := Pass;
  }

  /** `remove` of a transient definition: the merge INSERTs it under the next primary key, which the
    * DELETE then takes away again. */
  method RemoveTransient(t: AttributeTable, a: XmlAttributeDefinition) returns (r: Outcome<DaoError>)
    requires Valid(t) && a.id.None?
    modifies t
    ensures Valid(t)
    ensures r.Pass? <==> ColumnsOf(a).Success? && a.tagDefinition != null
                         && Admits(old(t.rows), None, a.uuid, ColumnsOf(a).value, TagAndName)
    ensures ColumnsOf(a).Failure? ==> r == Fail(ColumnsOf(a).error)
    ensures ColumnsOf(a).Success? && !Admits(old(t.rows), None, a.uuid, ColumnsOf(a).value, TagAndName) ==>
              r == Fail(ConstraintViolation)
    ensures r.Fail? ==> t.rows == old(t.rows) && t.nextId == old(t.nextId)
    ensures r.Pass? ==> t.rows == old(t.rows) && t.rows == DeleteWhere(old(t.rows), HasId(a.id))
    ensures r.Pass? ==> FindAll(t, a.tagDefinition.id) == DeleteWhere(old(FindAll(t, a.tagDefinition.id)), HasId(a.id))
  {
    var rows, nextId := t.rows, t.nextId;
    var merged := Merge(t, a);
    if merged.Failure? || a.tagDefinition == null {
      t.rows, t.nextId := rows, nextId;
      return if merged.Failure? then Fail(merged.error) else Fail(NullReference);
    }
    InsertedThenDeleted(rows, merged.value);
    Delete(t, HasId(Some(merged.value.id)), TagAndName);
    DeleteByNullKey(rows);
    DeleteByNullKey(OfTagByName(rows, a.tagDefinition.id));
    r := Pass;
  }

  /** The DELETE of the row with primary key `id`, seen by the tag with key `tagId`: its
    * attributes lose that row and keep their order. */
  method DeleteFromTag(t: AttributeTable, id: Option<int>, tagId: Option<int>)
    requires Valid(t)
    modifies t
    ensures Valid(t)
    ensures t.rows == DeleteWhere(old(t.rows), HasId(id))
    ensures FindAll(t, tagId) == DeleteWhere(old(FindAll(t, tagId)), HasId(id))
  {
    DeleteLeavesOrder(t.rows, tagId, id);
    Delete(t, HasId(id), TagAndName);
  }

  /** The object a query hands back for a stored row: a new instance carrying the row's columns. */
  method Load(row: AttributeRow) returns (d: XmlAttributeDefinition)
    ensures fresh(d)
    ensures d.id == Some(row.id) && d.uuid == row.uuid && d.name == Some(row.data.name)
            && d.required == row.data.required
  {
    d := new XmlAttributeDefinition();
    d.id := Some(row.id);
    d.SetUuid(row.uuid);
    d.SetName(Some(row.data.name));
    d.SetRequired(row.data.required);
  }

  /** `findById`: the row with that primary key; a null key finds nothing. */
  function FindById(t: AttributeTable, id: Option<int>): (r: Option<AttributeRow>)
    reads t
    ensures r.Some? ==> r.value in t.rows && Some(r.value.id) == id
    ensures r.None? <==> forall i :: 0 <= i < |t.rows| ==> Some(t.rows[i].id) != id
  {
    RowWithId(t.rows, id)
  }

  /** The row belongs to the tag with primary key `tagId`; a null key (a null or transient tag)
    * matches no row. */
  predicate OfTag(x: AttributeRow, tagId: Option<int>) {
    tagId.Some? && x.data.tagId == tagId
  }

  /** The WHERE condition `x.tagDefinition = :tagDefinition`. */
  function OfTagCondition(tagId: Option<int>): AttributeRow -> bool {
    (x: AttributeRow) => OfTag(x, tagId)
  }

  /** `findByName`: the first definition of the tag with that name, or None. */
  function FindByName(t: AttributeTable, tagId: Option<int>, name: Option<string>): (r: Option<AttributeRow>)
    reads t
    ensures r.Some? ==> r.value in t.rows && OfTag(r.value, tagId) && Some(r.value.data.name) == name
    ensures r.None? <==> forall i :: 0 <= i < |t.rows| ==> !(OfTag(t.rows[i], tagId) && Some(t.rows[i].data.name) == name)
  {
    FirstWhere(t.rows, (x: AttributeRow) => OfTag(x, tagId) && Some(x.data.name) == name)
  }

  function NameOf(x: AttributeRow): string {
    x.data.name
  }

  /** The rows of the tag, ordered by name. */
  function OfTagByName(rows: seq<AttributeRow>, tagId: Option<int>): (r: seq<AttributeRow>)
    ensures SortedBy(r, NameOf)
    ensures forall i :: 0 <= i < |r| ==> r[i] in rows && OfTag(r[i], tagId)
    ensures forall i :: 0 <= i < |rows| && OfTag(rows[i], tagId) ==> rows[i] in r
    ensures multiset(r) <= multiset(rows)
  {
    var mine := Filter(rows, OfTagCondition(tagId));
    var r := SortBy(mine, NameOf);
    SortedKeepsMembers(mine, r);
    r
  }

  /** Deleting the row with primary key `id` takes it out of a tag's ordered attributes and keeps
    * the order of the others. */
  lemma DeleteLeavesOrder(rows: seq<AttributeRow>, tagId: Option<int>, id: Option<int>)
    ensures OfTagByName(DeleteWhere(rows, HasId(id)), tagId) == DeleteWhere(OfTagByName(rows, tagId), HasId(id))
  {
    DeleteFromSortedSelection(rows, OfTagCondition(tagId), NameOf, HasId(id));
  }

  /** `findAll`: the definitions of the tag, ordered by name. */
  function FindAll(t: AttributeTable, tagId: Option<int>): (r: seq<AttributeRow>)
    reads t
    ensures SortedBy(r, NameOf)
    ensures forall i :: 0 <= i < |r| ==> r[i] in t.rows && OfTag(r[i], tagId)
    ensures forall i :: 0 <= i < |t.rows| && OfTag(t.rows[i], tagId) ==> t.rows[i] in r
    ensures multiset(r) <= multiset(t.rows)
  {
    OfTagByName(t.rows, tagId)
  }

  /** `findFirst`: the definition of the tag whose name comes first, or None when it has none. */
  function FindFirst(t: AttributeTable, tagId: Option<int>): (r: Option<AttributeRow>)
    reads t
    ensures r.None? <==> forall i :: 0 <= i < |t.rows| ==> !OfTag(t.rows[i], tagId)
    ensures r.Some? ==> r.value in t.rows && OfTag(r.value, tagId)
                        && forall i :: 0 <= i < |t.rows| && OfTag(t.rows[i], tagId) ==> LexLe(r.value.data.name, t.rows[i].data.name)
  {
    var all := FindAll(t, tagId);
    if all == [] then None
    else
      SortedHeadIsLeast(all, NameOf);
      Some(all[0])
  }
}
