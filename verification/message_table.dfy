/**
 * The `messages` table: rows `(id, content, user)` with an
 * `INTEGER PRIMARY KEY AUTOINCREMENT` id. The table is append-only in this
 * system (nothing ever updates or deletes a row), so it is a sequence of rows
 * in insertion order plus the AUTOINCREMENT counter: the largest id ever
 * handed out, from which the next id is drawn.
 */
module MessageTable {
  import opened Wrappers

  datatype Record = Record(id: nat, content: string, user: string)

  datatype Table = Table(rows: seq<Record>, lastId: nat)

  /** The largest rowid SQLite can assign: ids are signed 64-bit integers. */
  const MaxRowId: nat := 0x7FFF_FFFF_FFFF_FFFF

  /** The table as `CREATE TABLE IF NOT EXISTS` leaves a fresh database. */
  const Fresh: Table := Table([], 0)

  predicate Ascending(rows: seq<Record>) {
    forall i, j :: 0 <= i < j < |rows| ==> rows[i].id < rows[j].id
  }

  /** Ids increase in insertion order, are positive, none exceeds the counter, and the counter fits a rowid. */
  predicate Valid(t: Table) {
    && Ascending(t.rows)
    && t.lastId <= MaxRowId
    && forall r :: r in t.rows ==> 1 <= r.id <= t.lastId
  }

  /** The table after a successful INSERT, and the row it created. */
  datatype Inserted = Inserted(table: Table, row: Record)

  /**
   * `INSERT INTO messages (content, user) VALUES (...)` when the database call
   * itself goes through. Once the largest rowid has been handed out,
   * AUTOINCREMENT refuses every further insert (SQLITE_FULL): `None`.
   */
  function Insert(t: Table, content: string, user: string): (res: Option<Inserted>)
    ensures res.None? <==> t.lastId >= MaxRowId
    ensures res.Some? ==> res.value.row.content == content && res.value.row.user == user
    ensures res.Some? ==> res.value.table.rows == t.rows + [res.value.row]
    ensures res.Some? ==> t.lastId < res.value.row.id == res.value.table.lastId <= MaxRowId
    ensures res.Some? && Valid(t) ==> Valid(res.value.table)
    ensures res.Some? && Valid(t) ==> forall r :: r in t.rows ==> r.id < res.value.row.id
  {
    if t.lastId >= MaxRowId then None
    else
      var row := Record(t.lastId + 1, content, user);
      Some(Inserted(Table(t.rows + [row], row.id), row))
  }

  /** `SELECT id, content, user FROM messages WHERE id > k`, rows in table order. */
  function After(rows: seq<Record>, k: int): (r: seq<Record>)
    ensures forall x :: x in r <==> x in rows && x.id > k
    ensures |r| <= |rows|
    decreases |rows|
  {
    if |rows| == 0 then []
    else if rows[0].id > k then [rows[0]] + After(rows[1..], k)
    else After(rows[1..], k)
  }

  /** The selection keeps the rows' relative order, so it ascends when the table does. */
  lemma {:induction false} AfterAscending(rows: seq<Record>, k: int)
    requires Ascending(rows)
    ensures Ascending(After(rows, k))
    decreases |rows|
  {
    if |rows| > 0 {
      var tail := After(rows[1..], k);
      assert Ascending(rows[1..]) by {
        forall i, j | 0 <= i < j < |rows| - 1
          ensures rows[1..][i].id < rows[1..][j].id
        {
          assert rows[1..][i] == rows[i + 1] && rows[1..][j] == rows[j + 1];
        }
      }
      AfterAscending(rows[1..], k);
      forall x | x in tail
        ensures rows[0].id < x.id
      {
        var j :| 0 <= j < |rows[1..]| && rows[1..][j] == x;
        assert x == rows[j + 1];
      }
    }
  }

  /** When every row is past the offset, the selection is the whole table. */
  lemma {:induction false} AfterKeepsAll(rows: seq<Record>, k: int)
    requires forall x :: x in rows ==> x.id > k
    ensures After(rows, k) == rows
    decreases |rows|
  {
    if |rows| > 0 {
      assert forall x :: x in rows[1..] ==> x in rows;
      AfterKeepsAll(rows[1..], k);
      assert [rows[0]] + rows[1..] == rows;
    }
  }

  /** When no row is past the offset, the selection is empty. */
  lemma {:induction false} AfterEmpty(rows: seq<Record>, k: int)
    requires forall x :: x in rows ==> x.id <= k
    ensures After(rows, k) == []
    decreases |rows|
  {
    if |rows| > 0 {
      assert forall x :: x in rows[1..] ==> x in rows;
      AfterEmpty(rows[1..], k);
    }
  }

  /** An offset of 0 (or below) selects every row of a valid table. */
  lemma SelectFromZero(t: Table, k: int)
    requires Valid(t) && k <= 0
    ensures After(t.rows, k) == t.rows
  {
    AfterKeepsAll(t.rows, k);
  }

  /** An offset at or above the counter selects nothing. */
  lemma SelectPastCounter(t: Table, k: int)
    requires Valid(t) && t.lastId <= k
    ensures After(t.rows, k) == []
  {
    AfterEmpty(t.rows, k);
  }

  /** Selecting from a concatenation selects from each part. */
  lemma {:induction false} AfterSplit(a: seq<Record>, b: seq<Record>, k: int)
    ensures After(a + b, k) == After(a, k) + After(b, k)
    decreases |a|
  {
    if |a| > 0 {
      assert (a + b)[1..] == a[1..] + b;
      AfterSplit(a[1..], b, k);
    } else {
      assert a + b == b;
    }
  }
}
