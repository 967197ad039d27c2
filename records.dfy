/** The skyscraper table: one record per row of the data file, keyed by `id`
    (the frame index). Column names of the file are given beside each field. */
module Records {
  import opened Seqs

  datatype Record = Record(
    id: int,              // id (index column)
    name: string,         // name
    city: string,         // location.city
    latitude: real,       // location.latitude
    longitude: real,      // location.longitude
    height: real,         // statistics.height, in meters
    rank: int,            // statistics.rank
    floorsAbove: int,     // statistics.floors above
    status: string,       // status.current
    startedYear: int,     // status.started.year, 0 when unknown
    completedYear: int,   // status.completed.year, 0 when not completed
    purposes: set<string> // the purposes.<p> columns that are true
  )

  type Table = seq<Record>

  /** The index column holds no identifier twice. */
  ghost predicate UniqueIds(table: Table)
  {
    forall i, j :: 0 <= i < j < |table| ==> table[i].id != table[j].id
  }

  /** `df.loc[id]`: the record stored under an identifier (the first one, if repeated). */
  function FindById(table: Table, id: int): (r: Option<Record>)
    ensures r.Some? ==> r.value in table && r.value.id == id
    ensures r.None? <==> forall x :: x in table ==> x.id != id
  {
    if table == [] then None
    else if table[0].id == id then Some(table[0])
    else FindById(table[1..], id)
  }

  /** With unique identifiers, looking a record's identifier up gives that record back. */
  lemma {:induction false} FindByIdOwn(table: Table, x: Record)
    requires UniqueIds(table)
    requires x in table
    ensures FindById(table, x.id) == Some(x)
  {
    if table[0] != x {
      assert x in table[1..];
      var k :| 0 <= k < |table[1..]| && table[1..][k] == x;
      assert table[k + 1] == x;
      FindByIdOwn(table[1..], x);
    }
  }

  /** The file name `openProjectCsv` reads: ".csv" is appended unless already there. */
  function CsvFileName(filename: string): (r: string)
    ensures |r| >= 4 && r[|r| - 4..] == ".csv"
    ensures r == filename || r == filename + ".csv"
    ensures r == filename <==> |filename| >= 4 && filename[|filename| - 4..] == ".csv"
  {
    if |filename| >= 4 && filename[|filename| - 4..] == ".csv" then filename else filename + ".csv"
  }

  /** Naming the file with or without its suffix opens the same file. */
  lemma CsvFileNameIdempotent(filename: string)
    ensures CsvFileName(CsvFileName(filename)) == CsvFileName(filename)
    ensures CsvFileName(filename + ".csv") == filename + ".csv"
  {
    var f := filename + ".csv";
    assert f[|f| - 4..] == ".csv";
  }
}
