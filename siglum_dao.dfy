/** SiglumDao: storing, refreshing, removing and looking up sigla. */
module SiglumDao {
  import opened Wrappers
  import opened Text
  import opened Seqs
  import opened Identity
  import opened Entities
  import opened Rows
  import opened SqlLike

  /** The columns of a stored siglum besides its keys. */
  datatype SiglumData = SiglumData(name: string, taggedName: string, text: Option<string>, siglumType: SiglumType)

  type SiglumRow = Row<SiglumData>
  type SiglumTable = Table<SiglumData>

  /** The unique index on `name`. */
  function NameKey(d: SiglumData): Option<string> {
    Some(d.name)
  }

  ghost predicate Valid(t: SiglumTable)
    reads t
  {
    TableInvariant(t.rows, t.nextId, NameKey)
  }

  /** `isTransient`: the siglum has never been stored. */
  predicate IsTransient(s: Siglum)
    reads s
  {
    s.id.None?
  }

  /** The row a siglum is written as: name, tagged name and type are NOT NULL. */
  function ColumnsOf(s: Siglum): (r: Result<SiglumData, DaoError>)
    reads s
    ensures r.Success? <==> s.name.Some? && s.taggedName.Some? && s.siglumType.Some?
    ensures r.Success? ==> r.value.name == s.name.value && r.value.taggedName == s.taggedName.value
                           && r.value.text == s.text && r.value.siglumType == s.siglumType.value
    ensures r.Failure? ==> r.error == ConstraintViolation
  {
    if s.name.None? || s.taggedName.None? || s.siglumType.None? then Failure(ConstraintViolation)
    else Success(SiglumData(s.name.value, s.taggedName.value, s.text, s.siglumType.value))
  }

  /** `refresh`: the stored row of a siglum; a transient siglum is an illegal argument and a
    * primary key that no row has ends `getSingleResult` with no result. The table is not changed. */
  function Refresh(t: SiglumTable, s: Siglum): (r: Result<SiglumRow, DaoError>)
    reads t, s
    ensures IsTransient(s) ==> r == Failure(TransientEntity)
    ensures !IsTransient(s) ==> (r.Failure? <==> forall i :: 0 <= i < |t.rows| ==> t.rows[i].id != s.id.value)
    ensures r.Failure? ==> r.error == TransientEntity || r.error == NoResult
    ensures r.Success? ==> r.value in t.rows && Some(r.value.id) == s.id
  {
    if IsTransient(s) then Failure(TransientEntity)
    else match FindById(t, s.id)
      case None => Failure(NoResult)
      case Some(row) => Success(row)
  }

  /** `persist`: a missing UUID is assigned first (and stays assigned when the insert fails); the
    * siglum then becomes a new row, unless it is already stored or breaks a constraint. */
  method Persist(t: SiglumTable, s: Siglum, gen: UuidSource) returns (r: Outcome<DaoError>)
    requires Valid(t) && gen.Valid()
    modifies t, s`uuid, s`id, gen
    ensures Valid(t) && gen.Valid()
    ensures old(s.uuid).Some? ==> s.uuid == old(s.uuid)
    ensures old(s.uuid).None? ==> s.uuid.Some? && s.uuid.value !in old(gen.issued)
    ensures r.Pass? <==> old(s.id).None? && ColumnsOf(s).Success?
                         && Admits(old(t.rows), None, s.uuid, ColumnsOf(s).value, NameKey)
    ensures r.Pass? ==> s.id == Some(old(t.nextId))
                        && t.rows == old(t.rows) + [Row(old(t.nextId), s.uuid, ColumnsOf(s).value)]
    ensures r.Fail? ==> s.id == old(s.id) && t.rows == old(t.rows)
    ensures old(s.id).Some? ==> r == Fail(DetachedEntity)
    ensures old(s.id).None? && ColumnsOf(s).Failure? ==> r == Fail(ColumnsOf(s).error)
  {
    if s.uuid.None? {
      var u := gen.Next();
      s.SetUuid(Some(u));
    }
    if s.id.Some? {
      return Fail(DetachedEntity);
    }
    var columns := ColumnsOf(s);
    if columns.Failure? {
      return Fail(columns.error);
    }
    if !Admits(t.rows, None, s.uuid, columns.value, NameKey) {
      return Fail(ConstraintViolation);
    }
    var id := Insert(t, s.uuid, columns.value, NameKey);
    s.id := Some(id);
    r := Pass;
  }

  /** `merge`: the state of a stored siglum overwrites its row and the stored row is returned; a
    * siglum without primary key is stored as a new row and stays transient itself; a primary key
    * that no row has is a stale object. Merging the merged copy a second time changes nothing,
    * so one merge stands for both. */
  method Merge(t: SiglumTable, s: Siglum) returns (r: Result<SiglumRow, DaoError>)
    requires Valid(t)
    modifies t
    ensures Valid(t)
    ensures s.id.Some? && RowWithId(old(t.rows), s.id).None? ==> r == Failure(StaleEntity)
    ensures r.Success? ==> ColumnsOf(s).Success? && r.value.data == ColumnsOf(s).value && r.value.uuid == s.uuid
    ensures r.Success? && s.id.Some? ==> r.value.id == s.id.value
                                         && t.rows == ReplaceRow(old(t.rows), r.value)
    ensures r.Success? && s.id.None? ==> r.value.id == old(t.nextId) && t.rows == old(t.rows) + [r.value]
    ensures r.Failure? ==> t.rows == old(t.rows)
    ensures (s.id.None? || RowWithId(old(t.rows), s.id).Some?) && ColumnsOf(s).Failure? ==> r == Failure(ColumnsOf(s).error)
    ensures (s.id.None? || RowWithId(old(t.rows), s.id).Some?) && ColumnsOf(s).Success? ==>
              (r.Success? <==> Admits(old(t.rows), s.id, s.uuid, ColumnsOf(s).value, NameKey))
              && (r.Failure? ==> r.error == ConstraintViolation)
  {
    if s.id.Some? && FindById(t, s.id).None? {
      return Failure(StaleEntity);
    }
    var columns := ColumnsOf(s);
    if columns.Failure? {
      return Failure(columns.error);
    }
    if !Admits(t.rows, s.id, s.uuid, columns.value, NameKey) {
      return Failure(ConstraintViolation);
    }
    if s.id.None? {
      var id := Insert(t, s.uuid, columns.value, NameKey);
      r := Success(Row(id, s.uuid, columns.value));
    } else {
      Update(t, s.id.value, s.uuid, columns.value, NameKey);
      r := Success(Row(s.id.value, s.uuid, columns.value));
    }
  }

  /** `remove`: the siglum is merged and the merged object deleted, in one transaction. For a
    * stored siglum the merge only copies its state onto the managed object, which is then deleted,
    * so no UPDATE is written: exactly its row goes, whatever the siglum's fields now hold, and a
    * primary key that no row has is a stale object. A transient siglum is inserted by the merge
    * and deleted again, so the rows end as they were; when the insert breaks a constraint,
    * everything is rolled back. */
  method Remove(t: SiglumTable, s: Siglum) returns (r: Outcome<DaoError>)
    requires Valid(t)
    modifies t
    ensures Valid(t)
    ensures s.id.Some? ==> (r.Pass? <==> RowWithId(old(t.rows), s.id).Some?)
    ensures s.id.Some? && RowWithId(old(t.rows), s.id).None? ==> r == Fail(StaleEntity)
    ensures s.id.None? ==> (r.Pass? <==> ColumnsOf(s).Success? && Admits(old(t.rows), None, s.uuid, ColumnsOf(s).value, NameKey))
    ensures r.Fail? ==> t.rows == old(t.rows) && t.nextId == old(t.nextId)
    ensures r.Pass? && s.id.Some? ==> t.rows == DeleteWhere(old(t.rows), HasId(s.id))
    ensures r.Pass? && s.id.None? ==> t.rows == old(t.rows)
  {
    if s.id.Some? {
      if FindById(t, s.id).None? {
        return Fail(StaleEntity);
      }
      Delete(t, HasId(s.id), NameKey);
      return Pass;
    }
    var rows, nextId := t.rows, t.nextId;
    var merged := Merge(t, s);
    if merged.Failure? {
      t.rows, t.nextId := rows, nextId;
      return Fail(merged.error);
    }
    assert forall i :: 0 <= i < |rows| ==> rows[i].id < nextId == merged.value.id;
    InsertedThenDeleted(rows, merged.value);
    Delete(t, HasId(Some(merged.value.id)), NameKey);
    r := Pass;
  }

  /** The object a query hands back for a stored row: a new instance carrying the row's columns. */
  method Load(row: SiglumRow) returns (s: Siglum)
    ensures fresh(s)
    ensures s.id == Some(row.id) && s.uuid == row.uuid && s.name == Some(row.data.name)
            && s.taggedName == Some(row.data.taggedName) && s.text == row.data.text
            && s.siglumType == Some(row.data.siglumType)
  {
    s := new Siglum();
    s.id := Some(row.id);
    s.SetUuid(row.uuid);
    s.SetName(Some(row.data.name));
    s.SetTaggedName(Some(row.data.taggedName));
    s.SetText(row.data.text);
    s.SetType(Some(row.data.siglumType));
  }

  /** `findById`: the row with that primary key; a null key finds nothing. */
  function FindById(t: SiglumTable, id: Option<int>): (r: Option<SiglumRow>)
    reads t
    ensures r.Some? ==> r.value in t.rows && Some(r.value.id) == id
    ensures r.None? <==> forall i :: 0 <= i < |t.rows| ==> Some(t.rows[i].id) != id
  {
    RowWithId(t.rows, id)
  }

  /** `findByName`: the first siglum with exactly that name; a null name finds nothing. */
  function FindByName(t: SiglumTable, name: Option<string>): (r: Option<SiglumRow>)
    reads t
    ensures r.Some? ==> r.value in t.rows && Some(r.value.data.name) == name
    ensures r.None? <==> forall i :: 0 <= i < |t.rows| ==> Some(t.rows[i].data.name) != name
  {
    FirstWhere(t.rows, (x: SiglumRow) => Some(x.data.name) == name)
  }

  /** In a valid table at most one siglum has a given name. */
  lemma FindByNameIsUnique(t: SiglumTable, name: string, i: nat)
    requires Valid(t) && i < |t.rows| && t.rows[i].data.name == name
    ensures FindByName(t, Some(name)) == Some(t.rows[i])
  {
    var r := FindByName(t, Some(name));
    var j :| 0 <= j < |t.rows| && t.rows[j] == r.value && t.rows[j].data.name == name;
  }

  /** The `LIKE :substring` condition with `substring + "%"` bound to it. */
  function NameLike(pattern: string): SiglumRow -> bool {
    (x: SiglumRow) => LikeMatches(x.data.name, pattern)
  }

  /** `findAll`: the sigla whose name is LIKE the filter text followed by `%`, in table order. A
    * null filter text is concatenated as the word `null`. */
  function FindAll(t: SiglumTable, substring: Option<string>): (r: seq<SiglumRow>)
    reads t
    ensures forall i :: 0 <= i < |r| ==> r[i] in t.rows && LikeMatches(r[i].data.name, JavaString(substring) + "%")
    ensures forall i :: 0 <= i < |t.rows| && LikeMatches(t.rows[i].data.name, JavaString(substring) + "%") ==> t.rows[i] in r
    ensures multiset(r) <= multiset(t.rows)
  {
    Filter(t.rows, NameLike(JavaString(substring) + "%"))
  }

  /** For a filter text without wildcards `findAll` is the prefix search. */
  lemma FindAllIsPrefixSearch(t: SiglumTable, prefix: string)
    requires NoWildcards(prefix)
    ensures forall i :: 0 <= i < |FindAll(t, Some(prefix))| ==>
              StartsWith(FindAll(t, Some(prefix))[i].data.name, prefix)
    ensures forall i :: 0 <= i < |t.rows| && StartsWith(t.rows[i].data.name, prefix) ==>
              t.rows[i] in FindAll(t, Some(prefix))
  {
    var r := FindAll(t, Some(prefix));
    forall i | 0 <= i < |r| ensures StartsWith(r[i].data.name, prefix) {
      LikePrefix(r[i].data.name, prefix);
    }
    forall i | 0 <= i < |t.rows| && StartsWith(t.rows[i].data.name, prefix) ensures t.rows[i] in r {
      LikePrefix(t.rows[i].data.name, prefix);
    }
  }
}
