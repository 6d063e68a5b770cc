/** XmlTagDefinitionDao: storing, removing and looking up the tag definitions of a document definition. */
module XmlTagDefinitionDao {
  import opened Wrappers
  import opened Text
  import opened Seqs
  import opened Identity
  import opened Entities
  import opened Rows
  import AttributeDao = XmlAttributeDefinitionDao

  /** The columns of a stored tag definition besides its keys; `documentId` is the
    * `document_definition_id` foreign key. */
  datatype TagData = TagData(documentId: Option<int>, name: string, selfClosing: Option<bool>)

  type TagRow = Row<TagData>
  type TagTable = Table<TagData>

  /** The unique index on (document_definition_id, name); a null document takes part in no clash. */
  function DocumentAndName(d: TagData): Option<(int, string)> {
    if d.documentId.Some? then Some((d.documentId.value, d.name)) else None
  }

  ghost predicate Valid(t: TagTable)
    reads t
  {
    TableInvariant(t.rows, t.nextId, DocumentAndName)
  }

  /** `isTransient`: the definition has never been stored. */
  predicate IsTransient(d: XmlTagDefinition)
    reads d
  {
    d.id.None?
  }

  /** The row a definition is written as: a null name violates NOT NULL, and a document
    * definition that has no primary key yet cannot be referenced. */
  function ColumnsOf(d: XmlTagDefinition): Result<TagData, DaoError>
    reads d, d.documentDefinition
  {
    if d.name.None? then Failure(ConstraintViolation)
    else if d.documentDefinition != null && d.documentDefinition.id.None? then Failure(TransientReference)
    else Success(TagData(if d.documentDefinition == null then None else d.documentDefinition.id, d.name.value, d.selfClosing))
  }

  /** `persist`: a missing UUID is assigned first (and stays assigned when the insert fails); the
    * definition then becomes a new row, unless it is already stored or breaks a constraint. */
  method Persist(t: TagTable, d: XmlTagDefinition, gen: UuidSource) returns (r: Outcome<DaoError>)
    requires Valid(t) && gen.Valid()
    modifies t, d`uuid, d`id, gen
    ensures Valid(t) && gen.Valid()
    ensures old(d.uuid).Some? ==> d.uuid == old(d.uuid)
    ensures old(d.uuid).None? ==> d.uuid.Some? && d.uuid.value !in old(gen.issued)
    ensures r.Pass? <==> old(d.id).None? && ColumnsOf(d).Success?
                         && Admits(old(t.rows), None, d.uuid, ColumnsOf(d).value, DocumentAndName)
    ensures r.Pass? ==> d.id == Some(old(t.nextId))
                        && t.rows == old(t.rows) + [Row(old(t.nextId), d.uuid, ColumnsOf(d).value)]
    ensures r.Fail? ==> d.id == old(d.id) && t.rows == old(t.rows)
    ensures old(d.id).Some? ==> r == Fail(DetachedEntity)
    ensures old(d.id).None? && ColumnsOf(d).Failure? ==> r == Fail(ColumnsOf(d).error)
  {
    if d.uuid.None? {
      var u := gen.Next();
      d.SetUuid(Some(u));
    }
    if d.id.Some? {
      return Fail(DetachedEntity);
    }
    var columns := ColumnsOf(d);
    if columns.Failure? {
      return Fail(columns.error);
    }
    if !Admits(t.rows, None, d.uuid, columns.value, DocumentAndName) {
      return Fail(ConstraintViolation);
    }
    var id := Insert(t, d.uuid, columns.value, DocumentAndName);
    d.id := Some(id);
    r := Pass;
  }

  /** `merge`: the state of a stored definition overwrites its row and the stored row is returned;
    * a definition without primary key is stored as a new row and stays transient itself; a primary
    * key that no row has is a stale object. */
  method Merge(t: TagTable, d: XmlTagDefinition) returns (r: Result<TagRow, DaoError>)
    requires Valid(t)
    modifies t
    ensures Valid(t)
    ensures d.id.Some? && RowWithId(old(t.rows), d.id).None? ==> r == Failure(StaleEntity)
    ensures r.Success? ==> ColumnsOf(d).Success? && r.value.data == ColumnsOf(d).value && r.value.uuid == d.uuid
    ensures r.Success? && d.id.Some? ==> r.value.id == d.id.value
                                         && t.rows == ReplaceRow(old(t.rows), r.value)
    ensures r.Success? && d.id.None? ==> r.value.id == old(t.nextId) && t.rows == old(t.rows) + [r.value]
    ensures r.Failure? ==> t.rows == old(t.rows) && t.nextId == old(t.nextId)
    ensures (d.id.None? || RowWithId(old(t.rows), d.id).Some?) && ColumnsOf(d).Failure? ==> r == Failure(ColumnsOf(d).error)
    ensures (d.id.None? || RowWithId(old(t.rows), d.id).Some?) && ColumnsOf(d).Success? ==>
              (r.Success? <==> Admits(old(t.rows), d.id, d.uuid, ColumnsOf(d).value, DocumentAndName))
              && (r.Failure? ==> r.error == ConstraintViolation)
  {
    if d.id.Some? && FindById(t, d.id).None? {
      return Failure(StaleEntity);
    }
    var columns := ColumnsOf(d);
    if columns.Failure? {
      return Failure(columns.error);
    }
    if !Admits(t.rows, d.id, d.uuid, columns.value, DocumentAndName) {
      return Failure(ConstraintViolation);
    }
    if d.id.None? {
      var id := Insert(t, d.uuid, columns.value, DocumentAndName);
      r := Success(Row(id, d.uuid, columns.value));
    } else {
      Update(t, d.id.value, d.uuid, columns.value, DocumentAndName);
      r := Success(Row(d.id.value, d.uuid, columns.value));
    }
  }

  /** `remove`: the definition is merged and the merged copy deleted, in one transaction, and the
    * removal cascades to the rows of its attribute definitions. Java takes the merged copy out of
    * the tag list of the merged copy's document definition, the list the database yields for that
    * parent ordered by name; the caller's own objects are left as they are. For a stored
    * definition the merge writes nothing: exactly its row goes, and a primary key that no row has
    * is a stale object. A transient definition is inserted by the merge and deleted again, so the
    * tag rows end as they were; an insert that breaks a constraint fails with the insert's error.
    * Either way the parent's tags, as the database yields them, afterwards are its former tags
    * without this one, in their former order. A definition with no document definition fails with
    * a null reference once the merge has succeeded, and every failure rolls back all rows. */
  method Remove(t: TagTable, attributes: AttributeDao.AttributeTable, d: XmlTagDefinition)
    returns (r: Outcome<DaoError>)
    requires Valid(t) && AttributeDao.Valid(attributes)
    modifies t, attributes
    ensures Valid(t) && AttributeDao.Valid(attributes)
    ensures d.id.Some? ==> (r.Pass? <==> RowWithId(old(t.rows), d.id).Some? && d.documentDefinition != null)
    ensures d.id.Some? && RowWithId(old(t.rows), d.id).None? ==> r == Fail(StaleEntity)
    ensures d.id.None? ==> (r.Pass? <==> ColumnsOf(d).Success? && d.documentDefinition != null
                                         && Admits(old(t.rows), None, d.uuid, ColumnsOf(d).value, DocumentAndName))
    ensures d.id.None? && ColumnsOf(d).Failure? ==> r == Fail(ColumnsOf(d).error)
    ensures d.id.None? && ColumnsOf(d).Success? && !Admits(old(t.rows), None, d.uuid, ColumnsOf(d).value, DocumentAndName) ==>
              r == Fail(ConstraintViolation)
    ensures r.Fail? ==> t.rows == old(t.rows) && t.nextId == old(t.nextId) && attributes.rows == old(attributes.rows)
    ensures r.Pass? && d.id.Some? ==> t.rows == DeleteWhere(old(t.rows), HasId(d.id))
                                      && attributes.rows == DeleteWhere(old(attributes.rows), AttributeDao.OfTagCondition(d.id))
    ensures r.Pass? && d.id.None? ==> t.rows == old(t.rows)
                                      && attributes.rows == DeleteWhere(old(attributes.rows), AttributeDao.OfTagCondition(Some(old(t.nextId))))
    ensures r.Pass? ==> FindAll(t, d.documentDefinition.id) == DeleteWhere(old(FindAll(t, d.documentDefinition.id)), HasId(d.id))
  {
    if d.id.None? {
      r := RemoveTransient(t, attributes, d);
      return;
    }
    if FindById(t, d.id).None? {
      return Fail(StaleEntity);
    }
    if d.documentDefinition == null {
      return Fail(NullReference);
    }
    Delete(attributes, AttributeDao.OfTagCondition(d.id), AttributeDao.TagAndName);
    DeleteFromDocument(t, d.id, d.documentDefinition.id);
    r := Pass;
  }

  /** `remove` of a transient definition: the merge INSERTs it under the next primary key, which the
    * DELETE then takes away again together with any attribute rows of that key. */
  method RemoveTransient(t: TagTable, attributes: AttributeDao.AttributeTable, d: XmlTagDefinition)
    returns (r: Outcome<DaoError>)
    requires Valid(t) && AttributeDao.Valid(attributes) && d.id.None?
    modifies t, attributes
    ensures Valid(t) && AttributeDao.Valid(attributes)
    ensures r.Pass? <==> ColumnsOf(d).Success? && d.documentDefinition != null
                         && Admits(old(t.rows), None, d.uuid, ColumnsOf(d).value, DocumentAndName)
    ensures ColumnsOf(d).Failure? ==> r == Fail(ColumnsOf(d).error)
    ensures ColumnsOf(d).Success? && !Admits(old(t.rows), None, d.uuid, ColumnsOf(d).value, DocumentAndName) ==>
              r == Fail(ConstraintViolation)
    ensures r.Fail? ==> t.rows == old(t.rows) && t.nextId == old(t.nextId) && attributes.rows == old(attributes.rows)
    ensures r.Pass? ==> t.rows == old(t.rows)
                        && attributes.rows == DeleteWhere(old(attributes.rows), AttributeDao.OfTagCondition(Some(old(t.nextId))))
    ensures r.Pass? ==> FindAll(t, d.documentDefinition.id) == DeleteWhere(old(FindAll(t, d.documentDefinition.id)), HasId(d.id))
  {
    var rows, nextId := t.rows, t.nextId;
    var merged := Merge(t, d);
    if merged.Failure? || d.documentDefinition == null {
      t.rows, t.nextId := rows, nextId;
      return if merged.Failure? then Fail(merged.error) else Fail(NullReference);
    }
    Delete(attributes, AttributeDao.OfTagCondition(Some(merged.value.id)), AttributeDao.TagAndName);
    InsertedThenDeleted(rows, merged.value);
    Delete(t, HasId(Some(merged.value.id)), DocumentAndName);
    DeleteByNullKey(OfDocumentByName(rows, d.documentDefinition.id));
    r := Pass;
  }

  /** The DELETE of the row with primary key `id`, seen by the document definition with key
    * `documentId`: its tags lose that row and keep their order. */
  method DeleteFromDocument(t: TagTable, id: Option<int>, documentId: Option<int>)
    requires Valid(t)
    modifies t
    ensures Valid(t)
    ensures t.rows == DeleteWhere(old(t.rows), HasId(id))
    ensures FindAll(t, documentId) == DeleteWhere(old(FindAll(t, documentId)), HasId(id))
  {
    DeleteLeavesOrder(t.rows, documentId, id);
    Delete(t, HasId(id), DocumentAndName);
  }

  /** The object a query hands back for a stored row: a new instance carrying the row's columns. */
  method Load(row: TagRow) returns (d: XmlTagDefinition)
    ensures fresh(d)
    ensures d.id == Some(row.id) && d.uuid == row.uuid && d.name == Some(row.data.name)
            && d.selfClosing == row.data.selfClosing
  {
    d := new XmlTagDefinition();
    d.id := Some(row.id);
    d.SetUuid(row.uuid);
    d.SetName(Some(row.data.name));
    d.SetSelfClosing(row.data.selfClosing);
  }

  /** `findById`: the row with that primary key; a null key finds nothing. */
  function FindById(t: TagTable, id: Option<int>): (r: Option<TagRow>)
    reads t
    ensures r.Some? ==> r.value in t.rows && Some(r.value.id) == id
    ensures r.None? <==> forall i :: 0 <= i < |t.rows| ==> Some(t.rows[i].id) != id
  {
    RowWithId(t.rows, id)
  }

  /** The row belongs to the document definition with primary key `documentId`; a null key (a null
    * or transient document definition)
    * matches no row. */
  predicate OfDocument(x: TagRow, documentId: Option<int>) {
    documentId.Some? && x.data.documentId == documentId
  }

  /** The WHERE condition `x.tagDefinition = :tagDefinition`. */
  function OfDocumentCondition(documentId: Option<int>): TagRow -> bool {
    (x: TagRow) => OfDocument(x, documentId)
  }

  /** `findByName`: the first definition of the document definition with that name, or None. */
  function FindByName(t: TagTable, documentId: Option<int>, name: Option<string>): (r: Option<TagRow>)
    reads t
    ensures r.Some? ==> r.value in t.rows && OfDocument(r.value, documentId) && Some(r.value.data.name) == name
    ensures r.None? <==> forall i :: 0 <= i < |t.rows| ==> !(OfDocument(t.rows[i], documentId) && Some(t.rows[i].data.name) == name)
  {
    FirstWhere(t.rows, (x: TagRow) => OfDocument(x, documentId) && Some(x.data.name) == name)
  }

  function NameOf(x: TagRow): string {
    x.data.name
  }

  /** The rows of the document definition, ordered by name. */
  function OfDocumentByName(rows: seq<TagRow>, documentId: Option<int>): (r: seq<TagRow>)
    ensures SortedBy(r, NameOf)
    ensures forall i :: 0 <= i < |r| ==> r[i] in rows && OfDocument(r[i], documentId)
    ensures forall i :: 0 <= i < |rows| && OfDocument(rows[i], documentId) ==> rows[i] in r
    ensures multiset(r) <= multiset(rows)
  {
    var mine := Filter(rows, OfDocumentCondition(documentId));
    var r := SortBy(mine, NameOf);
    SortedKeepsMembers(mine, r);
    r
  }

  /** Deleting the row with primary key `id` takes it out of a document definition's ordered tags
    * and keeps the order of the others. */
  lemma DeleteLeavesOrder(rows: seq<TagRow>, documentId: Option<int>, id: Option<int>)
    ensures OfDocumentByName(DeleteWhere(rows, HasId(id)), documentId)
            == DeleteWhere(OfDocumentByName(rows, documentId), HasId(id))
  {
    DeleteFromSortedSelection(rows, OfDocumentCondition(documentId), NameOf, HasId(id));
  }

  /** `findAll`: the definitions of the document definition, ordered by name. */
  function FindAll(t: TagTable, documentId: Option<int>): (r: seq<TagRow>)
    reads t
    ensures SortedBy(r, NameOf)
    ensures forall i :: 0 <= i < |r| ==> r[i] in t.rows && OfDocument(r[i], documentId)
    ensures forall i :: 0 <= i < |t.rows| && OfDocument(t.rows[i], documentId) ==> t.rows[i] in r
    ensures multiset(r) <= multiset(t.rows)
  {
    OfDocumentByName(t.rows, documentId)
  }

  /** `findFirst`: the tag definition whose name comes first, or None when the document definition has none. */
  function FindFirst(t: TagTable, documentId: Option<int>): (r: Option<TagRow>)
    reads t
    ensures r.None? <==> forall i :: 0 <= i < |t.rows| ==> !OfDocument(t.rows[i], documentId)
    ensures r.Some? ==> r.value in t.rows && OfDocument(r.value, documentId)
                        && forall i :: 0 <= i < |t.rows| && OfDocument(t.rows[i], documentId) ==> LexLe(r.value.data.name, t.rows[i].data.name)
  {
    var all := FindAll(t, documentId);
    if all == [] then None
    else
      SortedHeadIsLeast(all, NameOf);
      Some(all[0])
  }
}
