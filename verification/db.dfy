/** A model of the document tables of the hosted database the backend runs on.

    A table is the sequence of its documents in creation order, each paired
    with the id the database gave it. Ids are handed out from a counter, so a
    later document always carries a larger id; the database's default scan
    order (by creation time) is therefore the order of `rows`.
    Every mutation is one sequential step from an old table to a new one. */
module Db {

  type Id = nat

  datatype Option<+T> = None | Some(value: T)

  datatype Row<D> = Row(id: Id, doc: D)

  datatype Table<D> = Table(rows: seq<Row<D>>, nextId: Id)

  /** The table after a mutation together with the id the mutation returned. */
  datatype Stored<D> = Stored(table: Table<D>, id: Id)

  /** The error `patch` raises for an id that names no document. */
  datatype Patched<D> = Ok(table: Table<D>) | NotFound(missing: Id)

  /** What the database keeps true of every table: ids increase along the
      table (so they are pairwise distinct) and stay below the counter. */
  ghost predicate Valid<D>(t: Table<D>) {
    && (forall i, j :: 0 <= i < j < |t.rows| ==> t.rows[i].id < t.rows[j].id)
    && (forall i :: 0 <= i < |t.rows| ==> t.rows[i].id < t.nextId)
  }

  ghost predicate HasId<D>(t: Table<D>, id: Id) {
    exists i :: 0 <= i < |t.rows| && t.rows[i].id == id
  }

  /** No two documents share a key. */
  ghost predicate UniqueBy<D, K>(rows: seq<Row<D>>, key: D -> K) {
    forall i, j :: 0 <= i < j < |rows| ==> key(rows[i].doc) != key(rows[j].doc)
  }

  /** `db.insert`: appends the document under a fresh id and returns the id. */
  function Insert<D>(t: Table<D>, doc: D): (r: Stored<D>)
    ensures |r.table.rows| == |t.rows| + 1
    ensures r.table.rows[..|t.rows|] == t.rows
    ensures r.table.rows[|t.rows|] == Row(r.id, doc)
    ensures Valid(t) ==> !HasId(t, r.id) && Valid(r.table)
  {
    var r := Stored(Table(t.rows + [Row(t.nextId, doc)], t.nextId + 1), t.nextId);
    assert r.table.rows[..|t.rows|] == t.rows;
    r
  }

  /** `.first()` of a filtered scan: the position of the earliest row that
      satisfies `p`, or None when no row does. */
  function FirstWhere<D>(rows: seq<Row<D>>, p: Row<D> -> bool): (r: Option<nat>)
    ensures r.None? <==> forall i :: 0 <= i < |rows| ==> !p(rows[i])
    ensures r.Some? ==> r.value < |rows| && p(rows[r.value])
    ensures r.Some? ==> forall j :: 0 <= j < r.value ==> !p(rows[j])
  {
    if |rows| == 0 then None
    else if p(rows[0]) then Some(0)
    else
      match FirstWhere(rows[1..], p)
      case None => None
      case Some(k) => Some(k + 1)
  }

  /** The rows of a scan that satisfy `p`, in scan order. */
  function Filter<D(!new)>(rows: seq<Row<D>>, p: Row<D> -> bool): (r: seq<Row<D>>)
    ensures |r| <= |rows|
    ensures forall x :: x in r <==> x in rows && p(x)
    ensures forall x :: multiset(r)[x] == if p(x) then multiset(rows)[x] else 0
  {
    if |rows| == 0 then []
    else
      var rest := Filter(rows[1..], p);
      assert rows == [rows[0]] + rows[1..];
      if p(rows[0]) then [rows[0]] + rest else rest
  }

  /** Insert-if-absent on a key: when a document with the same key exists the
      earliest one's id is returned and the table is untouched; otherwise the
      document is inserted. */
  function InsertIfAbsent<D, K(==)>(t: Table<D>, key: D -> K, doc: D): (r: Stored<D>)
    ensures (exists i :: 0 <= i < |t.rows| && key(t.rows[i].doc) == key(doc)) ==>
      && r.table == t
      && (exists i :: 0 <= i < |t.rows| && key(t.rows[i].doc) == key(doc) && r.id == t.rows[i].id
           && forall j :: 0 <= j < i ==> key(t.rows[j].doc) != key(doc))
    ensures (forall i :: 0 <= i < |t.rows| ==> key(t.rows[i].doc) != key(doc)) ==>
      && |r.table.rows| == |t.rows| + 1
      && r.table.rows[..|t.rows|] == t.rows
      && r.table.rows[|t.rows|] == Row(r.id, doc)
      && (Valid(t) ==> !HasId(t, r.id))
    ensures Valid(t) ==> Valid(r.table)
  {
    match FirstWhere(t.rows, (row: Row<D>) => key(row.doc) == key(doc))
    case Some(i) => Stored(t, t.rows[i].id)
    case None => Insert(t, doc)
  }

  /** A second insert-if-absent with the same document returns the same id and
      leaves the table as the first one left it. */
  lemma InsertIfAbsentIdempotent<D, K>(t: Table<D>, key: D -> K, doc: D)
    ensures InsertIfAbsent(InsertIfAbsent(t, key, doc).table, key, doc) == InsertIfAbsent(t, key, doc)
  {
    var once := InsertIfAbsent(t, key, doc);
    if forall i :: 0 <= i < |t.rows| ==> key(t.rows[i].doc) != key(doc) {
      var n := |t.rows|;
      assert key(once.table.rows[n].doc) == key(doc);
    }
  }

  /** Insert-if-absent never creates a second document with a key already present. */
  lemma InsertIfAbsentKeepsUnique<D, K>(t: Table<D>, key: D -> K, doc: D)
    requires UniqueBy(t.rows, key)
    ensures UniqueBy(InsertIfAbsent(t, key, doc).table.rows, key)
  {
    var r := InsertIfAbsent(t, key, doc);
    if forall i :: 0 <= i < |t.rows| ==> key(t.rows[i].doc) != key(doc) {
      var n := |t.rows|;
      forall i, j | 0 <= i < j < |r.table.rows|
        ensures key(r.table.rows[i].doc) != key(r.table.rows[j].doc)
      {
        assert r.table.rows[i] == t.rows[i];
        if j < n {
          assert r.table.rows[j] == t.rows[j];
        }
      }
    }
  }

  /** `db.patch`: replaces the document with the given id by `f` of it;
      an id that names no document is an error and changes nothing. */
  function Patch<D>(t: Table<D>, id: Id, f: D -> D): (r: Patched<D>)
    ensures r.NotFound? <==> !HasId(t, id)
    ensures r.Ok? ==> |r.table.rows| == |t.rows| && r.table.nextId == t.nextId
    ensures r.Ok? ==> forall i :: 0 <= i < |t.rows| ==> r.table.rows[i].id == t.rows[i].id
    ensures r.Ok? && Valid(t) ==> Valid(r.table)
    ensures r.Ok? && Valid(t) ==> forall i :: 0 <= i < |t.rows| ==>
      r.table.rows[i].doc == (if t.rows[i].id == id then f(t.rows[i].doc) else t.rows[i].doc)
  {
    match FirstWhere(t.rows, (row: Row<D>) => row.id == id)
    case None => NotFound(id)
    case Some(i) =>
      Ok(Table(t.rows[i := Row(id, f(t.rows[i].doc))], t.nextId))
  }
}
