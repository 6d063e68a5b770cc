/** XmlDocumentDefinitionDao: storing, seeding and looking up XML document definitions. */
module XmlDocumentDefinitionDao {
  import opened Wrappers
  import opened Text
  import opened Seqs
  import opened Identity
  import opened Entities
  import opened Rows
  import XmlHelper

  /** The columns of a stored document definition besides its keys. */
  datatype DocumentData = DocumentData(identifier: string, rootElement: string, schema: Option<string>,
                                       xsl: Option<string>)

  type DocumentRow = Row<DocumentData>
  type DocumentTable = Table<DocumentData>

  /** The unique index on `identifier`. */
  function IdentifierKey(d: DocumentData): Option<string> {
    Some(d.identifier)
  }

  ghost predicate Valid(t: DocumentTable)
    reads t
  {
    TableInvariant(t.rows, t.nextId, IdentifierKey)
  }

  /** The identifiers of the definitions the application needs. */
  const Identifiers: seq<string> := ["fontMarkup", "siglumTextMarkup"]

  /** `isTransient`: the definition has never been stored. */
  predicate IsTransient(d: XmlDocumentDefinition)
    reads d
  {
    d.id.None?
  }

  /** The row a definition is written as; None when a NOT NULL column (identifier, root element)
    * is null. */
  function ColumnsOf(d: XmlDocumentDefinition): Option<DocumentData>
    reads d
  {
    if d.identifier.Some? && d.rootElement.Some?
    then Some(DocumentData(d.identifier.value, d.rootElement.value, d.schema, d.xsl))
    else None
  }

  /** `persist`: a missing UUID is assigned first (and stays assigned when the insert fails); the
    * definition then becomes a new row, unless it is already stored or breaks a constraint. */
  method Persist(t: DocumentTable, d: XmlDocumentDefinition, gen: UuidSource) returns (r: Outcome<DaoError>)
    requires Valid(t) && gen.Valid()
    modifies t, d`uuid, d`id, gen
    ensures Valid(t) && gen.Valid()
    ensures old(d.uuid).Some? ==> d.uuid == old(d.uuid)
    ensures old(d.uuid).None? ==> d.uuid.Some? && d.uuid.value !in old(gen.issued)
    ensures r.Pass? <==> old(d.id).None? && ColumnsOf(d).Some?
                         && Admits(old(t.rows), None, d.uuid, ColumnsOf(d).value, IdentifierKey)
    ensures r.Pass? ==> d.id == Some(old(t.nextId))
                        && t.rows == old(t.rows) + [Row(old(t.nextId), d.uuid, ColumnsOf(d).value)]
    ensures r.Fail? ==> d.id == old(d.id) && t.rows == old(t.rows)
    ensures old(d.id).Some? ==> r == Fail(DetachedEntity)
    ensures old(d.id).None? && r.Fail? ==> r == Fail(ConstraintViolation)
  {
    if d.uuid.None? {
      var u := gen.Next();
      d.SetUuid(Some(u));
    }
    if d.id.Some? {
      return Fail(DetachedEntity);
    }
    var columns := ColumnsOf(d);
    if columns.None? || !Admits(t.rows, None, d.uuid, columns.value, IdentifierKey) {
      return Fail(ConstraintViolation);
    }
    var id := Insert(t, d.uuid, columns.value, IdentifierKey);
    d.id := Some(id);
    r := Pass;
  }

  /** The definition `initialize` stores for a missing identifier. */
  function SeedColumns(identifier: string): DocumentData {
    DocumentData(identifier, "document", Some(XmlHelper.EmptySchema), None)
  }

  predicate HasIdentifier(rows: seq<DocumentRow>, identifier: string) {
    exists i :: 0 <= i < |rows| && rows[i].data.identifier == identifier
  }

  /** The identifiers of `ids` that no row of `rows` carries, in order. */
  function MissingIdentifiers(rows: seq<DocumentRow>, ids: seq<string>): seq<string> {
    Filter(ids, (x: string) => !HasIdentifier(rows, x))
  }

  /** Every UUID stored in the table came from `gen`. */
  ghost predicate UuidsIssuedBy(rows: seq<DocumentRow>, gen: UuidSource)
    reads gen
  {
    forall i :: 0 <= i < |rows| && rows[i].uuid.Some? ==> rows[i].uuid.value in gen.issued
  }

  /** `added` is what `initialize` appends to `before` after handling the identifiers `ids`: one
    * seed row per missing identifier, in order, each with a UUID not in `issued`. */
  ghost predicate SeededRows(before: seq<DocumentRow>, ids: seq<string>, added: seq<DocumentRow>, issued: set<string>) {
    var missing := MissingIdentifiers(before, ids);
    |added| == |missing|
    && forall k :: 0 <= k < |added| ==>
         added[k].data == SeedColumns(missing[k]) && added[k].uuid.Some? && added[k].uuid.value !in issued
  }

  lemma SeededStep(before: seq<DocumentRow>, ids: seq<string>, x: string, added: seq<DocumentRow>,
                   row: seq<DocumentRow>, issued: set<string>)
    requires SeededRows(before, ids, added, issued)
    requires HasIdentifier(before, x) ==> row == []
    requires !HasIdentifier(before, x) ==> |row| == 1 && row[0].data == SeedColumns(x)
                                           && row[0].uuid.Some? && row[0].uuid.value !in issued
    ensures SeededRows(before, ids + [x], added + row, issued)
  {
    FilterAppend(ids, [x], (y: string) => !HasIdentifier(before, y));
  }

  lemma SeededIdentifiers(before: seq<DocumentRow>, ids: seq<string>, added: seq<DocumentRow>, issued: set<string>, k: int)
    requires SeededRows(before, ids, added, issued) && 0 <= k < |added|
    ensures added[k].data.identifier in ids
  {
    var missing := MissingIdentifiers(before, ids);
    assert missing[k] in ids;
  }

  /** `initialize` on a table that already holds every required identifier adds no row. */
  lemma InitializeTwiceAddsNothing(rows: seq<DocumentRow>, added: seq<DocumentRow>, issued: set<string>)
    requires forall k :: 0 <= k < |Identifiers| ==> HasIdentifier(rows, Identifiers[k])
    requires SeededRows(rows, Identifiers, added, issued)
    ensures added == []
  {
  }

  /** One pass of `initialize` for an identifier that is missing: a new definition with root
    * element `document`, the empty schema, the identifier and a fresh UUID is stored. */
  method StoreSeed(t: DocumentTable, gen: UuidSource, identifier: string)
    returns (r: Outcome<DaoError>, ghost row: DocumentRow)
    requires Valid(t) && gen.Valid()
    requires !HasIdentifier(t.rows, identifier)
    modifies t, gen
    ensures Valid(t) && gen.Valid()
    ensures old(gen.issued) <= gen.issued
    ensures r.Fail? ==> r == Fail(ConstraintViolation) && t.rows == old(t.rows)
    ensures r.Pass? ==> t.rows == old(t.rows) + [row]
                        && row.data == SeedColumns(identifier) && row.uuid.Some?
                        && row.uuid.value !in old(gen.issued) && row.uuid.value in gen.issued
    ensures old(UuidsIssuedBy(t.rows, gen)) ==> r.Pass? && UuidsIssuedBy(t.rows, gen)
  {
    var definition := new XmlDocumentDefinition();
    definition.SetRootElement(Some("document"));
    definition.SetSchema(Some(XmlHelper.EmptySchema));
    definition.SetIdentifier(Some(identifier));
    var u := gen.Next();
    definition.SetUuid(Some(u));
    var columns := DocumentData(identifier, "document", Some(XmlHelper.EmptySchema), None);
    row := Row(t.nextId, Some(u), columns);
    assert ColumnsOf(definition) == Some(columns);
    if !Admits(t.rows, None, definition.uuid, columns, IdentifierKey) {
      r := Fail(ConstraintViolation);
      return;
    }
    var id := Insert(t, definition.uuid, columns, IdentifierKey);
    definition.id := Some(id);
    r := Pass;
  }

  /** What `initialize` has done after handling the identifiers `done`: the seed rows of the
    * missing ones are appended to `before`, and every identifier of `done` is present. */
  ghost predicate InitState(before: seq<DocumentRow>, done: seq<string>, rows: seq<DocumentRow>, issued: set<string>) {
    before <= rows
    && SeededRows(before, done, rows[|before|..], issued)
    && forall k :: 0 <= k < |done| ==> HasIdentifier(rows, done[k])
  }

  /** The body of `initialize`'s loop for one identifier: nothing when a definition with that
    * identifier exists, otherwise a seed definition is stored. */
  method InitializeIdentifier(t: DocumentTable, gen: UuidSource, identifier: string,
                              ghost before: seq<DocumentRow>, ghost done: seq<string>, ghost issued: set<string>)
    returns (r: Outcome<DaoError>)
    requires Valid(t) && gen.Valid() && issued <= gen.issued
    requires InitState(before, done, t.rows, issued)
    requires identifier !in done
    modifies t, gen
    ensures Valid(t) && gen.Valid() && issued <= gen.issued
    ensures r.Fail? ==> r == Fail(ConstraintViolation)
    ensures old(UuidsIssuedBy(t.rows, gen)) ==> r.Pass? && UuidsIssuedBy(t.rows, gen)
    ensures r.Pass? ==> InitState(before, done + [identifier], t.rows, issued)
  {
    ghost var added := t.rows[|before|..];
    assert t.rows == before + added;
    NewIdentifierIsMissing(before, done, identifier, added, issued);
    var existing := Filter(t.rows, (x: DocumentRow) => x.data.identifier == identifier);
    if existing != [] {
      assert existing[0] in t.rows;
      SeededStep(before, done, identifier, added, [], issued);
      assert added + [] == added;
      HasIdentifierStays(t.rows, done, identifier);
      return Pass;
    }
    ghost var row;
    r, row := StoreSeed(t, gen, identifier);
    if r.Fail? {
      return;
    }
    SeedKeepsInitState(before, done, identifier, added, row, issued);
  }

  /** Appending the seed row of an identifier that `before` lacks keeps the state of `initialize`,
    * with that identifier handled. */
  lemma SeedKeepsInitState(before: seq<DocumentRow>, done: seq<string>, x: string, added: seq<DocumentRow>,
                           row: DocumentRow, issued: set<string>)
    requires SeededRows(before, done, added, issued)
    requires forall k :: 0 <= k < |done| ==> HasIdentifier(before + added, done[k])
    requires !HasIdentifier(before, x)
    requires row.data == SeedColumns(x) && row.uuid.Some? && row.uuid.value !in issued
    ensures InitState(before, done + [x], before + added + [row], issued)
  {
    SeededStep(before, done, x, added, [row], issued);
    HasIdentifierGrows(before + added, row, done, x);
    var rows := before + added + [row];
    assert rows == before + (added + [row]);
    assert rows[|before|..] == added + [row];
  }

  /** `initialize`: for each required identifier that no stored definition carries, stores a new
    * definition with root element `document`, the empty schema and a fresh UUID. Identifiers that
    * are present are left alone, so a second call changes nothing. */
  method Initialize(t: DocumentTable, gen: UuidSource) returns (r: Outcome<DaoError>)
    requires Valid(t) && gen.Valid()
    modifies t, gen
    ensures Valid(t) && gen.Valid()
    ensures r.Fail? ==> r.error == ConstraintViolation
    ensures old(UuidsIssuedBy(t.rows, gen)) ==> r.Pass?
    ensures r.Pass? ==> forall k :: 0 <= k < |Identifiers| ==> HasIdentifier(t.rows, Identifiers[k])
    ensures r.Pass? ==> old(t.rows) <= t.rows
                        && SeededRows(old(t.rows), Identifiers, t.rows[|old(t.rows)|..], old(gen.issued))
  {
    assert Identifiers[0] != Identifiers[1];
    r := SeedIdentifiers(t, gen, Identifiers);
  }

  /** The loop of `initialize` over the distinct identifiers `ids`, one `InitializeIdentifier` each;
    * the first failure ends it. */
  method SeedIdentifiers(t: DocumentTable, gen: UuidSource, ids: seq<string>) returns (r: Outcome<DaoError>)
    requires Valid(t) && gen.Valid()
    requires forall i, j :: 0 <= i < j < |ids| ==> ids[i] != ids[j]
    modifies t, gen
    ensures Valid(t) && gen.Valid()
    ensures r.Fail? ==> r.error == ConstraintViolation
    ensures old(UuidsIssuedBy(t.rows, gen)) ==> r.Pass?
    ensures r.Pass? ==> InitState(old(t.rows), ids, t.rows, old(gen.issued))
  {
    ghost var before := t.rows;
    ghost var issuedBefore := gen.issued;
    ghost var fromGen := UuidsIssuedBy(t.rows, gen);
    assert t.rows[|before|..] == [];
    r := Pass;
    for i := 0 to |ids|
      invariant Valid(t) && gen.Valid() && issuedBefore <= gen.issued
      invariant fromGen ==> UuidsIssuedBy(t.rows, gen)
      invariant InitState(before, ids[..i], t.rows, issuedBefore)
      invariant r == Pass
    {
      assert ids[i] !in ids[..i];
      assert ids[..i + 1] == ids[..i] + [ids[i]];
      r := InitializeIdentifier(t, gen, ids[i], before, ids[..i], issuedBefore);
      if r.Fail? {
        return;
      }
    }
    assert ids[..|ids|] == ids;
  }

  /** An identifier already present keeps the handled identifiers present. */
  lemma HasIdentifierStays(rows: seq<DocumentRow>, ids: seq<string>, x: string)
    requires forall k :: 0 <= k < |ids| ==> HasIdentifier(rows, ids[k])
    requires HasIdentifier(rows, x)
    ensures forall k :: 0 <= k < |ids + [x]| ==> HasIdentifier(rows, (ids + [x])[k])
  {
    forall k | 0 <= k < |ids + [x]| ensures HasIdentifier(rows, (ids + [x])[k]) {
      if k < |ids| { assert (ids + [x])[k] == ids[k]; }
    }
  }

  /** Appending a row for `x` keeps the identifiers present and makes `x` present. */
  lemma HasIdentifierGrows(rows: seq<DocumentRow>, row: DocumentRow, ids: seq<string>, x: string)
    requires forall k :: 0 <= k < |ids| ==> HasIdentifier(rows, ids[k])
    requires row.data.identifier == x
    ensures forall k :: 0 <= k < |ids + [x]| ==> HasIdentifier(rows + [row], (ids + [x])[k])
  {
    forall k | 0 <= k < |ids + [x]| ensures HasIdentifier(rows + [row], (ids + [x])[k]) {
      if k < |ids| {
        var j :| 0 <= j < |rows| && rows[j].data.identifier == ids[k];
        assert (rows + [row])[j] == rows[j];
      } else {
        assert (rows + [row])[|rows|] == row;
      }
    }
  }

  /** The rows `initialize` has added so far carry identifiers handled before, so an identifier
    * not yet handled is present exactly when it was present at the start. */
  lemma NewIdentifierIsMissing(before: seq<DocumentRow>, done: seq<string>, x: string, added: seq<DocumentRow>,
                               issued: set<string>)
    requires x !in done
    requires SeededRows(before, done, added, issued)
    ensures HasIdentifier(before + added, x) <==> HasIdentifier(before, x)
  {
    var rows := before + added;
    if HasIdentifier(rows, x) {
      var j :| 0 <= j < |rows| && rows[j].data.identifier == x;
      if j >= |before| {
        SeededIdentifiers(before, done, added, issued, j - |before|);
        assert false;
      }
      assert before[j] == rows[j];
    }
    if HasIdentifier(before, x) {
      var j :| 0 <= j < |before| && before[j].data.identifier == x;
      assert rows[j] == before[j];
    }
  }

  /** `findById`: the row with that primary key; a null key finds nothing. */
  function FindById(t: DocumentTable, id: Option<int>): (r: Option<DocumentRow>)
    reads t
    ensures r.Some? ==> r.value in t.rows && Some(r.value.id) == id
    ensures r.None? <==> forall i :: 0 <= i < |t.rows| ==> Some(t.rows[i].id) != id
  {
    RowWithId(t.rows, id)
  }

  /** `findByIdentifier`: the first row with that identifier, or None; a null identifier finds
    * nothing, as `= NULL` does in SQL. */
  function FindByIdentifier(t: DocumentTable, identifier: Option<string>): (r: Option<DocumentRow>)
    reads t
    ensures r.Some? ==> r.value in t.rows && Some(r.value.data.identifier) == identifier
    ensures r.None? <==> forall i :: 0 <= i < |t.rows| ==> Some(t.rows[i].data.identifier) != identifier
  {
    FirstWhere(t.rows, (x: DocumentRow) => Some(x.data.identifier) == identifier)
  }

  /** The unique index makes `findByIdentifier` return the one row that has the identifier. */
  lemma FindByIdentifierIsExact(t: DocumentTable, i: int)
    requires Valid(t) && 0 <= i < |t.rows|
    ensures FindByIdentifier(t, Some(t.rows[i].data.identifier)) == Some(t.rows[i])
  {
    var r := FindByIdentifier(t, Some(t.rows[i].data.identifier));
    var j :| 0 <= j < |t.rows| && t.rows[j] == r.value;
  }

  function IdentifierOf(x: DocumentRow): string {
    x.data.identifier
  }

  /** `findAll`: every stored definition, ordered by identifier. */
  function FindAll(t: DocumentTable): (r: seq<DocumentRow>)
    reads t
    ensures multiset(r) == multiset(t.rows)
    ensures SortedBy(r, IdentifierOf)
  {
    SortBy(t.rows, IdentifierOf)
  }

  /** `findFirst`: the definition whose identifier comes first, or None for an empty table. */
  function FindFirst(t: DocumentTable): (r: Option<DocumentRow>)
    reads t
    ensures r.None? <==> t.rows == []
    ensures r.Some? ==> r.value in t.rows
                        && forall i :: 0 <= i < |t.rows| ==> LexLe(r.value.data.identifier, t.rows[i].data.identifier)
  {
    var all := FindAll(t);
    if all == [] then
      assert |multiset(t.rows)| == |multiset(all)|;
      None
    else
      SortedHeadIsLeast(all, IdentifierOf);
      assert all[0] in multiset(t.rows);
      assert forall i :: 0 <= i < |t.rows| ==> t.rows[i] in all by {
        forall i | 0 <= i < |t.rows| ensures t.rows[i] in all {
          assert t.rows[i] in multiset(all);
        }
      }
      Some(all[0])
  }
}
