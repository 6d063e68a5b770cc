/** The relational database behind the DAOs: a table is a sequence of rows, each a primary key,
  * a UUID column and the entity's other columns as a value. */
module Rows {
  import opened Wrappers
  import opened Seqs

  /** One stored row. */
  datatype Row<D> = Row(id: int, uuid: Option<string>, data: D)

  /** The exceptions a DAO call ends with. */
  datatype DaoError =
    | DetachedEntity        // persist of an object that already carries a primary key
    | StaleEntity           // merge or remove of a primary key that no row has (optimistic locking)
    | ConstraintViolation   // a NOT NULL column left null, or a UNIQUE index violated
    | TransientReference    // a reference to a parent object that has no primary key yet
    | NullReference         // a NullPointerException
    | TransientEntity       // refresh of an object that has no primary key
    | NoResult              // getSingleResult found no row

  /** Two rows can stand in one table: different primary keys, different UUIDs and different
    * unique keys. A null UUID or a null unique key clashes with nothing, as in SQL. */
  predicate Compatible<D, K(==)>(key: D -> Option<K>, a: Row<D>, b: Row<D>) {
    a.id != b.id && (a.uuid.Some? ==> a.uuid != b.uuid) && (key(a.data).Some? ==> key(a.data) != key(b.data))
  }

  /** The table's integrity: positive primary keys below the next one to hand out, and no clash. */
  predicate TableInvariant<D, K(==)>(rows: seq<Row<D>>, nextId: int, key: D -> Option<K>) {
    0 < nextId && (forall i :: 0 <= i < |rows| ==> 0 < rows[i].id < nextId)
    && forall i, j :: 0 <= i < j < |rows| ==> Compatible(key, rows[i], rows[j])
  }

  /** A row with `uuid` and `data` clashes with no row of `rows` except the one with primary key
    * `replacing`, which it is about to overwrite. */
  predicate Admits<D, K(==)>(rows: seq<Row<D>>, replacing: Option<int>, uuid: Option<string>, data: D,
                             key: D -> Option<K>) {
    forall i :: 0 <= i < |rows| && Some(rows[i].id) != replacing ==>
      (uuid.Some? ==> rows[i].uuid != uuid) && (key(data).Some? ==> key(rows[i].data) != key(data))
  }

  /** `SELECT x WHERE x.id = :id`: a null `id` matches no row. */
  function RowWithId<D>(rows: seq<Row<D>>, id: Option<int>): (r: Option<Row<D>>)
    ensures r.Some? ==> r.value in rows && Some(r.value.id) == id
    ensures r.None? ==> forall i :: 0 <= i < |rows| ==> Some(rows[i].id) != id
  {
    FirstWhere(rows, (x: Row<D>) => Some(x.id) == id)
  }

  /** The WHERE condition `x.id = :id`; a null `id` matches no row. */
  function HasId<D>(id: Option<int>): Row<D> -> bool {
    (x: Row<D>) => Some(x.id) == id
  }

  /** The table after an UPDATE of the row whose primary key is `row.id`. */
  function ReplaceRow<D>(rows: seq<Row<D>>, row: Row<D>): (r: seq<Row<D>>)
    ensures |r| == |rows|
    ensures forall i :: 0 <= i < |rows| ==> r[i] == if rows[i].id == row.id then row else rows[i]
  {
    seq(|rows|, i requires 0 <= i < |rows| => if rows[i].id == row.id then row else rows[i])
  }

  /** The table after a DELETE of the rows that satisfy `p`. */
  function DeleteWhere<D>(rows: seq<Row<D>>, p: Row<D> -> bool): (r: seq<Row<D>>)
    ensures |r| <= |rows|
    ensures forall i :: 0 <= i < |r| ==> r[i] in rows && !p(r[i])
    ensures forall i :: 0 <= i < |rows| && !p(rows[i]) ==> rows[i] in r
  {
    Filter(rows, Not(p))
  }

  /** Deleting a row by its primary key removes it whatever an earlier UPDATE wrote into it. */
  lemma {:induction false} DeleteReplaced<D>(rows: seq<Row<D>>, row: Row<D>)
    ensures DeleteWhere(ReplaceRow(rows, row), HasId(Some(row.id))) == DeleteWhere(rows, HasId(Some(row.id)))
    decreases |rows|
  {
    var replaced := ReplaceRow(rows, row);
    if rows != [] {
      assert replaced[1..] == ReplaceRow(rows[1..], row);
      assert replaced[0].id == rows[0].id;
      DeleteReplaced(rows[1..], row);
    }
  }

  /** A DELETE shows in an ordered selection of the rows as the deleted rows leaving it, the others
    * keeping their order. */
  lemma DeleteFromSortedSelection<D>(rows: seq<Row<D>>, p: Row<D> -> bool, key: Row<D> -> string, q: Row<D> -> bool)
    ensures DeleteWhere(SortBy(Filter(rows, p), key), q) == SortBy(Filter(DeleteWhere(rows, q), p), key)
  {
    FilterSortBy(Filter(rows, p), key, Not(q));
    FilterCommutes(rows, p, Not(q));
  }

  /** Deleting the row that was just appended, by its fresh primary key, gives back the table. */
  lemma InsertedThenDeleted<D>(rows: seq<Row<D>>, row: Row<D>)
    requires forall i :: 0 <= i < |rows| ==> rows[i].id != row.id
    ensures DeleteWhere(rows + [row], HasId(Some(row.id))) == rows
  {
    var keep := Not(HasId(Some(row.id)));
    FilterAppend(rows, [row], keep);
    assert forall i :: 0 <= i < |rows| ==> keep(rows[i]);
    FilterKeepsAll(rows, keep);
    assert Filter([row], keep) == [];
  }

  /** A DELETE by a null primary key deletes nothing. */
  lemma DeleteByNullKey<D>(rows: seq<Row<D>>)
    ensures DeleteWhere(rows, HasId(None)) == rows
  {
    var keep := Not(HasId<D>(None));
    assert forall i :: 0 <= i < |rows| ==> keep(rows[i]);
    FilterKeepsAll(rows, keep);
  }

  /** The negation of a WHERE condition. */
  function Not<D>(p: Row<D> -> bool): Row<D> -> bool {
    (x: Row<D>) => !p(x)
  }

  /** A database table: its rows and the next primary key its identity column hands out. */
  class Table<D> {
    var rows: seq<Row<D>>
    var nextId: int

    /** An empty table. */
    constructor ()
      ensures rows == [] && nextId == 1
    {
      rows := [];
      nextId := 1;
    }
  }

  /** INSERT: the row gets the next primary key and is appended. */
  method Insert<D, K(==)>(t: Table<D>, uuid: Option<string>, data: D, ghost key: D -> Option<K>) returns (id: int)
    requires TableInvariant(t.rows, t.nextId, key)
    requires Admits(t.rows, None, uuid, data, key)
    modifies t
    ensures TableInvariant(t.rows, t.nextId, key)
    ensures id == old(t.nextId)
    ensures t.rows == old(t.rows) + [Row(id, uuid, data)]
    ensures forall i :: 0 <= i < |old(t.rows)| ==> old(t.rows)[i].id != id
  {
    id := t.nextId;
    t.rows := t.rows + [Row(id, uuid, data)];
    t.nextId := t.nextId + 1;
  }

  /** UPDATE of the row with primary key `id`, which must exist. */
  method Update<D, K(==)>(t: Table<D>, id: int, uuid: Option<string>, data: D, ghost key: D -> Option<K>)
    requires TableInvariant(t.rows, t.nextId, key)
    requires RowWithId(t.rows, Some(id)).Some?
    requires Admits(t.rows, Some(id), uuid, data, key)
    modifies t
    ensures TableInvariant(t.rows, t.nextId, key)
    ensures t.nextId == old(t.nextId)
    ensures t.rows == ReplaceRow(old(t.rows), Row(id, uuid, data))
  {
    var row := Row(id, uuid, data);
    var rows := ReplaceRow(t.rows, row);
    forall i | 0 <= i < |rows| ensures 0 < rows[i].id < t.nextId {
      if t.rows[i].id == id { assert rows[i].id == t.rows[i].id; }
    }
    forall i, j | 0 <= i < j < |rows| ensures Compatible(key, rows[i], rows[j]) {
      if t.rows[i].id == id {
        assert t.rows[j].id != id;
      } else if t.rows[j].id == id {
        assert t.rows[i].id != id;
      }
    }
    t.rows := rows;
  }

  /** DELETE of every row that satisfies `p`. */
  method Delete<D, K(==)>(t: Table<D>, p: Row<D> -> bool, ghost key: D -> Option<K>)
    requires TableInvariant(t.rows, t.nextId, key)
    modifies t
    ensures TableInvariant(t.rows, t.nextId, key)
    ensures t.nextId == old(t.nextId)
    ensures t.rows == DeleteWhere(old(t.rows), p)
  {
    FilterPairwise(t.rows, Not(p), (a: Row<D>, b: Row<D>) => Compatible(key, a, b));
    t.rows := DeleteWhere(t.rows, p);
  }
}
