/**
 * The history store: the `sentiments` table of the SQLite file `DB_NAME` and
 * the four functions that create, fill, read and empty it.
 *
 * The table is modelled by its meaning, not through sqlite3: the rows in
 * insertion order, whether the table exists yet, and the AUTOINCREMENT
 * counter SQLite keeps in `sqlite_sequence` (the largest id ever handed out,
 * which deleting rows does not lower). Each Python function opens its own
 * connection and commits; here each is one method on the table object.
 */
module Database {
  import opened Wrappers

  /** One row: `id INTEGER PRIMARY KEY AUTOINCREMENT`, `text TEXT NOT NULL`,
      `sentiment TEXT NOT NULL`, `timestamp DATETIME DEFAULT CURRENT_TIMESTAMP`. */
  datatype Row = Row(id: int, text: string, sentiment: string, timestamp: string)

  /** The largest rowid SQLite can assign (a signed 64-bit integer). Once it
      has been used, an AUTOINCREMENT insert fails with SQLITE_FULL. */
  const MaxRowId: int := 0x7FFF_FFFF_FFFF_FFFF

  /** `LIMIT 50` of the history query. */
  const PageSize: nat := 50

  /** Rows in insertion order have strictly increasing ids. */
  ghost predicate IdsAscending(rows: seq<Row>) {
    forall i, j :: 0 <= i < j < |rows| ==> rows[i].id < rows[j].id
  }

  /** Strictly decreasing ids, as `ORDER BY id DESC` returns them. */
  ghost predicate IdsDescending(rows: seq<Row>) {
    forall i, j :: 0 <= i < j < |rows| ==> rows[i].id > rows[j].id
  }

  function Min(a: int, b: int): int {
    if a < b then a else b
  }

  /** The last n rows, newest first. */
  function NewestFirst(rows: seq<Row>, n: nat): (page: seq<Row>)
    ensures |page| == Min(n, |rows|)
    ensures forall i :: 0 <= i < |page| ==> page[i] == rows[|rows| - 1 - i]
  {
    seq(Min(n, |rows|), i requires 0 <= i < Min(n, |rows|) => rows[|rows| - 1 - i])
  }

  /** `SELECT * FROM sentiments ORDER BY id DESC LIMIT 50` on rows with
      ascending ids: at most 50 rows, ids strictly decreasing, every row of the
      table either in the page or older than every row of it. */
  lemma NewestFirstIsTopByID(rows: seq<Row>)
    requires IdsAscending(rows)
    ensures |NewestFirst(rows, PageSize)| <= PageSize
    ensures IdsDescending(NewestFirst(rows, PageSize))
    ensures forall r :: r in NewestFirst(rows, PageSize) ==> r in rows
    ensures forall i, j :: 0 <= i < |rows| - |NewestFirst(rows, PageSize)| && 0 <= j < |NewestFirst(rows, PageSize)| ==>
      rows[i].id < NewestFirst(rows, PageSize)[j].id
  {
    var page := NewestFirst(rows, PageSize);
    forall r | r in page ensures r in rows {
      var i :| 0 <= i < |page| && page[i] == r;
      assert rows[|rows| - 1 - i] == r;
    }
  }

  /** The three rows inserted last come first, the newest at the head. */
  lemma NewestFirstOfThree(rows: seq<Row>, a: Row, b: Row, c: Row)
    ensures NewestFirst(rows + [a, b, c], PageSize)[..3] == [c, b, a]
  {
    var all := rows + [a, b, c];
    assert all[|all| - 1] == c && all[|all| - 2] == b && all[|all| - 3] == a;
  }

  /** Whether `INSERT INTO sentiments (text, sentiment) VALUES (?, ?)` succeeds:
      the table must exist, neither value may be NULL (`NOT NULL`), and the
      counter must not already be at the largest rowid. */
  predicate InsertSucceeds(tableExists: bool, sequence: int, text: Option<string>, sentiment: Option<string>) {
    tableExists && text.Some? && sentiment.Some? && sequence < MaxRowId
  }

  /** The rows and the counter after `save_to_sqlite`: one new row with the
      next id if the insert succeeds, the old ones otherwise. */
  function AfterSave(rows: seq<Row>, sequence: int, tableExists: bool, text: Option<string>,
                     sentiment: Option<string>, now: string): (seq<Row>, int)
  {
    if InsertSucceeds(tableExists, sequence, text, sentiment)
    then (rows + [Row(sequence + 1, text.value, sentiment.value, now)], sequence + 1)
    else (rows, sequence)
  }

  /** The `sentiments` table in the database file. */
  class HistoryTable {
    /** Whether `CREATE TABLE` has run on this file. */
    var tableExists: bool
    /** The rows, oldest first. */
    var rows: seq<Row>
    /** The AUTOINCREMENT counter: the largest id ever assigned to a row. */
    var sequence: int
    /** Every id ever assigned, including ids of deleted rows. */
    ghost var issued: set<int>

    ghost predicate Valid()
      reads this
    {
      && 0 <= sequence <= MaxRowId
      && IdsAscending(rows)
      && (forall i :: 0 <= i < |rows| ==> rows[i].id in issued)
      && (forall id :: id in issued ==> 1 <= id <= sequence)
      && (!tableExists ==> rows == [] && sequence == 0 && issued == {})
    }

    /** A database file without the table, as before the first run. */
    constructor ()
      ensures Valid()
      ensures !tableExists && rows == [] && sequence == 0 && issued == {}
    {
      tableExists := false;
      rows := [];
      sequence := 0;
      issued := {};
    }

    /** `initialize_database`: `CREATE TABLE IF NOT EXISTS`. Afterwards the
        table exists; an existing table keeps its rows and its counter, so
        calling it again changes nothing. */
    method InitializeDatabase()
      requires Valid()
      modifies this
      ensures Valid()
      ensures tableExists
      ensures rows == old(rows) && sequence == old(sequence) && issued == old(issued)
    {
      tableExists := true;
    }

    /** `save_to_sqlite(data)` with `data['text']` and `data['sentiment']`.
        A successful insert appends one row whose id is one above the counter
        and so above every id ever assigned; a failed one (no table, a NULL
        value, the counter exhausted) is reported and swallowed and leaves the
        table as it was. Returns whether the row was stored. */
    method Save(text: Option<string>, sentiment: Option<string>, now: string) returns (saved: bool)
      requires Valid()
      modifies this
      ensures Valid()
      ensures saved == InsertSucceeds(old(tableExists), old(sequence), text, sentiment)
      ensures saved ==> rows == old(rows) + [Row(old(sequence) + 1, text.value, sentiment.value, now)]
      ensures saved ==> sequence == old(sequence) + 1 && issued == old(issued) + {sequence}
      ensures saved ==> forall id :: id in old(issued) ==> id < sequence
      ensures !saved ==> rows == old(rows) && sequence == old(sequence) && issued == old(issued)
      ensures tableExists == old(tableExists)
      ensures (rows, sequence) == AfterSave(old(rows), old(sequence), old(tableExists), text, sentiment, now)
    {
      saved := InsertSucceeds(tableExists, sequence, text, sentiment);
      if saved {
        var id := sequence + 1;
        rows := rows + [Row(id, text.value, sentiment.value, now)];
        sequence := id;
        issued := issued + {id};
      }
    }

    /** `load_data_from_sqlite`: the 50 newest rows, newest first, or the empty
        result when the query fails because the table does not exist. The
        table is not changed. */
    method Load() returns (page: seq<Row>)
      requires Valid()
      ensures page == if tableExists then NewestFirst(rows, PageSize) else []
      ensures |page| <= PageSize && IdsDescending(page)
      ensures forall r :: r in page ==> r in rows
      ensures forall i, j :: 0 <= i < |rows| - |page| && 0 <= j < |page| ==> rows[i].id < page[j].id
    {
      NewestFirstIsTopByID(rows);
      if !tableExists {
        return [];
      }
      page := NewestFirst(rows, PageSize);
    }

    /** `delete_all_records`: `DELETE FROM sentiments` empties the table but
        keeps the counter, so ids are not reused; without a table the error is
        swallowed. Returns whether the statement ran. */
    method DeleteAllRecords() returns (deleted: bool)
      requires Valid()
      modifies this
      ensures Valid()
      ensures deleted == old(tableExists)
      ensures rows == []
      ensures tableExists == old(tableExists) && sequence == old(sequence) && issued == old(issued)
    {
      deleted := tableExists;
      if deleted {
        rows := [];
      }
    }
  }

  /** Saving A, then B, then C and loading gives C, B, A at the head of the
      history, with consecutive new ids. */
  method SaveThreeThenLoad(t: HistoryTable, a: string, b: string, c: string, sentiment: string, now: string)
      returns (page: seq<Row>)
    requires t.Valid() && t.tableExists && t.sequence + 3 <= MaxRowId
    modifies t
    ensures t.Valid()
    ensures |page| >= 3
    ensures page[..3] == [Row(old(t.sequence) + 3, c, sentiment, now), Row(old(t.sequence) + 2, b, sentiment, now),
                          Row(old(t.sequence) + 1, a, sentiment, now)]
  {
    var before, n := t.rows, t.sequence;
    var ra, rb, rc := Row(n + 1, a, sentiment, now), Row(n + 2, b, sentiment, now), Row(n + 3, c, sentiment, now);
    var ok := t.Save(Some(a), Some(sentiment), now);
    ok := t.Save(Some(b), Some(sentiment), now);
    ok := t.Save(Some(c), Some(sentiment), now);
    assert t.rows == before + [ra, rb, rc];
    NewestFirstOfThree(before, ra, rb, rc);
    page := t.Load();
  }

  /** After deleting everything the history is empty, and the next saved row
      gets an id above every id assigned before the deletion. */
  method DeleteThenSave(t: HistoryTable, text: string, sentiment: string, now: string)
      returns (emptyPage: seq<Row>, page: seq<Row>)
    requires t.Valid() && t.tableExists && t.sequence < MaxRowId
    modifies t
    ensures t.Valid()
    ensures emptyPage == []
    ensures page == [Row(old(t.sequence) + 1, text, sentiment, now)]
    ensures forall id :: id in old(t.issued) ==> id < page[0].id
  {
    var deleted := t.DeleteAllRecords();
    emptyPage := t.Load();
    var saved := t.Save(Some(text), Some(sentiment), now);
    page := t.Load();
  }
}
