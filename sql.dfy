/** The relational layer the handlers talk to: a table is its rows in rowid
    order plus the counter that SQLite's AUTOINCREMENT hands the next id from.
    Only the statement shapes the application uses are modelled: INSERT,
    SELECT/DELETE with a WHERE predicate, UPDATE of the row with a given id,
    and fetchone(), which returns the first matching row. */
module Sql {

  datatype Option<T> = None | Some(value: T)

  /** A row: its INTEGER PRIMARY KEY and the other columns. */
  datatype Row<R> = Row(id: nat, data: R)

  /** A table: rows in rowid order and the id the next INSERT receives. */
  datatype Table<R> = Table(rows: seq<Row<R>>, nextId: nat)

  predicate IdsIncreasing<R>(rows: seq<Row<R>>) {
    forall i, j :: 0 <= i < j < |rows| ==> rows[i].id < rows[j].id
  }

  predicate IdsBelow<R>(rows: seq<Row<R>>, bound: nat) {
    forall i :: 0 <= i < |rows| ==> rows[i].id < bound
  }

  /** Ids are unique, appear in increasing order, and were all handed out
      before the counter's current value. */
  predicate Valid<R>(t: Table<R>) {
    1 <= t.nextId && IdsIncreasing(t.rows) && IdsBelow(t.rows, t.nextId)
  }

  /** CREATE TABLE: no rows, and AUTOINCREMENT starts at 1. */
  function Create<R>(): (t: Table<R>)
    ensures Valid(t) && |t.rows| == 0
  {
    Table([], 1)
  }

  /** INSERT: one new row at the end, with an id no existing row has. */
  function Insert<R>(t: Table<R>, d: R): (r: Table<R>)
    ensures Valid(t) ==> Valid(r)
    ensures |r.rows| == |t.rows| + 1 && r.rows[..|t.rows|] == t.rows
    ensures r.rows[|t.rows|] == Row(t.nextId, d) && r.nextId == t.nextId + 1
  {
    Table(t.rows + [Row(t.nextId, d)], t.nextId + 1)
  }

  /** The rows that satisfy p, in rowid order: the result of SELECT ... WHERE p,
      and, with the predicate negated, what DELETE ... WHERE leaves behind. */
  function Where<R(!new)>(rows: seq<Row<R>>, p: Row<R> -> bool): (r: seq<Row<R>>)
    ensures |r| <= |rows|
    ensures forall x :: x in r <==> x in rows && p(x)
    ensures IdsIncreasing(rows) ==> IdsIncreasing(r)
    ensures forall b: nat :: IdsBelow(rows, b) ==> IdsBelow(r, b)
  {
    if rows == [] then []
    else
      var rest := Where(rows[1..], p);
      assert forall x :: x in rows[1..] ==> x in rows;
      assert forall b: nat :: IdsBelow(rows, b) ==> IdsBelow(rows[1..], b) && rows[0].id < b;
      if p(rows[0]) then
        assert forall x :: x in rest ==> x in rows[1..];
        IdsAfterHead(rows);
        [rows[0]] + rest
      else rest
  }

  lemma IdsAfterHead<R>(rows: seq<Row<R>>)
    requires |rows| > 0
    ensures IdsIncreasing(rows) ==> forall x :: x in rows[1..] ==> rows[0].id < x.id
  {
    forall x | IdsIncreasing(rows) && x in rows[1..] ensures rows[0].id < x.id {
      var k :| 0 <= k < |rows[1..]| && rows[1..][k] == x;
      assert rows[k + 1] == x;
    }
  }

  /** The index of the first row satisfying p, or |rows| when there is none. */
  function FirstIndex<R>(rows: seq<Row<R>>, p: Row<R> -> bool): (k: nat)
    ensures k <= |rows|
    ensures forall j :: 0 <= j < k ==> !p(rows[j])
    ensures k < |rows| ==> p(rows[k])
  {
    if rows == [] then 0
    else if p(rows[0]) then 0
    else 1 + FirstIndex(rows[1..], p)
  }

  /** fetchone() after SELECT ... WHERE p: the first matching row, if any. */
  function Find<R>(rows: seq<Row<R>>, p: Row<R> -> bool): (r: Option<Row<R>>)
    ensures r.None? <==> forall i :: 0 <= i < |rows| ==> !p(rows[i])
    ensures r.Some? ==> r.value in rows && p(r.value)
  {
    var k := FirstIndex(rows, p);
    if k < |rows| then Some(rows[k]) else None
  }

  function HasId<R>(key: nat): Row<R> -> bool {
    (x: Row<R>) => x.id == key
  }

  function NotId<R>(key: nat): Row<R> -> bool {
    (x: Row<R>) => x.id != key
  }

  /** UPDATE ... SET ... WHERE id = key: f rewrites the columns of the rows
      with that id; every other row stays as it was. */
  function Update<R>(rows: seq<Row<R>>, key: nat, f: R -> R): (r: seq<Row<R>>)
    ensures |r| == |rows|
    ensures forall i :: 0 <= i < |rows| ==>
      r[i] == if rows[i].id == key then Row(key, f(rows[i].data)) else rows[i]
    ensures IdsIncreasing(rows) ==> IdsIncreasing(r)
    ensures forall b: nat :: IdsBelow(rows, b) ==> IdsBelow(r, b)
  {
    seq(|rows|, i requires 0 <= i < |rows| =>
      if rows[i].id == key then Row(key, f(rows[i].data)) else rows[i])
  }

  /** DELETE ... WHERE id = key. */
  function Delete<R(!new)>(t: Table<R>, key: nat): (r: Table<R>)
    ensures Valid(t) ==> Valid(r)
    ensures r.nextId == t.nextId
    ensures forall x :: x in r.rows <==> x in t.rows && x.id != key
  {
    Table(Where(t.rows, NotId(key)), t.nextId)
  }

  /** Deleting rows that a predicate never selects does not change which row
      fetchone() returns for it. */
  lemma {:induction false} FindInWhere<R(!new)>(rows: seq<Row<R>>, keep: Row<R> -> bool, p: Row<R> -> bool)
    requires forall x :: p(x) ==> keep(x)
    ensures Find(Where(rows, keep), p) == Find(rows, p)
  {
    if rows != [] {
      FindInWhere(rows[1..], keep, p);
      if !p(rows[0]) {
        assert Find(rows, p) == Find(rows[1..], p) by {
          FindTail(rows, p);
        }
        if keep(rows[0]) {
          FindTail(Where(rows, keep), p);
        }
      }
    }
  }

  lemma FindTail<R>(rows: seq<Row<R>>, p: Row<R> -> bool)
    requires |rows| > 0 && !p(rows[0])
    ensures Find(rows, p) == Find(rows[1..], p)
  {
  }

  /** Once the first match is known, fetchone() returns it. */
  lemma FindFirst<R>(rows: seq<Row<R>>, p: Row<R> -> bool, k: nat)
    requires k < |rows| && p(rows[k])
    requires forall j :: 0 <= j < k ==> !p(rows[j])
    ensures Find(rows, p) == Some(rows[k])
  {
    var f := FirstIndex(rows, p);
    if f < k {
    } else if f > k {
    }
  }

  /** Where distributes over appending one row. */
  lemma {:induction false} WhereAppend<R(!new)>(rows: seq<Row<R>>, x: Row<R>, p: Row<R> -> bool)
    ensures Where(rows + [x], p) == Where(rows, p) + (if p(x) then [x] else [])
  {
    if rows == [] {
      assert [x][1..] == [];
    } else {
      assert (rows + [x])[1..] == rows[1..] + [x];
      WhereAppend(rows[1..], x, p);
    }
  }
}
