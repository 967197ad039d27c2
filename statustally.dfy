/** The "Skyscrapers by status" bar chart: a tally of five status
    categories, with the two "topped out" statuses folded into one bar. */
module StatusTally {
  import opened Seqs
  import opened Records

  /** `status_counts`: one counter per bar, in the order the bars are drawn
      (completed, on hold, demolished, under construction, topped out). */
  datatype Tally = Tally(
    completed: nat,
    onHold: nat,
    demolished: nat,
    underConstruction: nat,
    toppedOut: nat
  )

  /** The bar labels, in the order of the tally's fields. */
  const BarLabels: seq<string> := ["completed", "on hold", "demolished", "under construction", "topped out"]

  predicate HasStatus(s: string, r: Record)
  {
    r.status == s
  }

  function WithStatus(s: string): Record -> bool
  {
    (r: Record) => HasStatus(s, r)
  }

  /** The number of records with status `s`. */
  function StatusCount(table: Table, s: string): nat
  {
    Count(table, WithStatus(s))
  }

  /** The six statuses that some bar counts. */
  predicate Tallied(status: string)
  {
    status == "completed" || status == "on hold" || status == "demolished"
    || status == "under construction"
    || status == "architecturally topped out" || status == "structurally topped out"
  }

  /** The bar heights, in the order of `BarLabels`. */
  function Values(t: Tally): (vs: seq<nat>)
    ensures |vs| == |BarLabels|
  {
    [t.completed, t.onHold, t.demolished, t.underConstruction, t.toppedOut]
  }

  function Sum(t: Tally): nat
  {
    t.completed + t.onHold + t.demolished + t.underConstruction + t.toppedOut
  }

  /** One pass of the loop body: the counter of the status's category goes
      up by one; a status of no category leaves the tally unchanged. */
  function Step(t: Tally, status: string): Tally
  {
    if status == "completed" then t.(completed := t.completed + 1)
    else if status == "on hold" then t.(onHold := t.onHold + 1)
    else if status == "demolished" then t.(demolished := t.demolished + 1)
    else if status == "under construction" then t.(underConstruction := t.underConstruction + 1)
    else if status == "architecturally topped out" then t.(toppedOut := t.toppedOut + 1)
    else if status == "structurally topped out" then t.(toppedOut := t.toppedOut + 1)
    else t
  }

  /** The tally after the loop has gone through `table`. */
  function TallyOf(table: Table): Tally
  {
    if table == [] then Tally(0, 0, 0, 0, 0)
    else Step(TallyOf(table[..|table| - 1]), table[|table| - 1].status)
  }

  /** Each bar counts the records of its statuses. */
  lemma {:induction false} TallyOfCounts(table: Table)
    ensures TallyOf(table).completed == StatusCount(table, "completed")
    ensures TallyOf(table).onHold == StatusCount(table, "on hold")
    ensures TallyOf(table).demolished == StatusCount(table, "demolished")
    ensures TallyOf(table).underConstruction == StatusCount(table, "under construction")
    ensures TallyOf(table).toppedOut ==
      StatusCount(table, "architecturally topped out") + StatusCount(table, "structurally topped out")
  {
    if table != [] {
      var init := table[..|table| - 1];
      var r := table[|table| - 1];
      assert table == init + [r];
      TallyOfCounts(init);
      CountSnoc(init, r, WithStatus("completed"));
      CountSnoc(init, r, WithStatus("on hold"));
      CountSnoc(init, r, WithStatus("demolished"));
      CountSnoc(init, r, WithStatus("under construction"));
      CountSnoc(init, r, WithStatus("architecturally topped out"));
      CountSnoc(init, r, WithStatus("structurally topped out"));
    }
  }

  /** `for status in df['status.current']`: goes through the status column
      once, adding one to the counter of each record's category. */
  method TallyStatuses(table: Table) returns (t: Tally)
    ensures t.completed == StatusCount(table, "completed")
    ensures t.onHold == StatusCount(table, "on hold")
    ensures t.demolished == StatusCount(table, "demolished")
    ensures t.underConstruction == StatusCount(table, "under construction")
    ensures t.toppedOut == StatusCount(table, "architecturally topped out") + StatusCount(table, "structurally topped out")
  {
    t := Tally(0, 0, 0, 0, 0);
    var n := 0;
    while n < |table|
      invariant 0 <= n <= |table|
      invariant t == TallyOf(table[..n])
    {
      assert table[..n + 1][..n] == table[..n];
      var status := table[n].status;
      if status == "completed" {
        t := t.(completed := t.completed + 1);
      } else if status == "on hold" {
        t := t.(onHold := t.onHold + 1);
      } else if status == "demolished" {
        t := t.(demolished := t.demolished + 1);
      } else if status == "under construction" {
        t := t.(underConstruction := t.underConstruction + 1);
      } else if status == "architecturally topped out" {
        t := t.(toppedOut := t.toppedOut + 1);
      } else if status == "structurally topped out" {
        t := t.(toppedOut := t.toppedOut + 1);
      }
      n := n + 1;
    }
    assert table[..n] == table;
    TallyOfCounts(table);
  }

  /** The bar a raw status is counted on, as a position in `BarLabels`: a
      status counts on the bar of the same name, except that the two
      topped-out statuses count on "topped out"; any other status on none. */
  function BarOf(status: string): (bar: Option<nat>)
    ensures bar.Some? <==> Tallied(status)
    ensures bar.Some? ==> bar.value < |BarLabels|
  {
    if status == "architecturally topped out" || status == "structurally topped out" then
      Some(IndexOf(BarLabels, "topped out"))
    else
      assert BarLabels[..|BarLabels| - 1] == ["completed", "on hold", "demolished", "under construction"];
      if status in BarLabels[..|BarLabels| - 1] then Some(IndexOf(BarLabels, status))
      else None
  }

  function OnBar(i: nat): Record -> bool
  {
    (r: Record) => BarOf(r.status) == Some(i)
  }

  /** One pass raises exactly the bar the status belongs on. */
  lemma StepBar(t: Tally, status: string, i: int)
    requires 0 <= i < |BarLabels|
    ensures Values(Step(t, status))[i] == Values(t)[i] + if BarOf(status) == Some(i) then 1 else 0
  {
    if status == "architecturally topped out" || status == "structurally topped out" {
      assert BarOf(status) == Some(4);
    } else if status == "completed" {
      assert BarOf(status) == Some(0);
    } else if status == "on hold" {
      assert BarOf(status) == Some(1);
    } else if status == "demolished" {
      assert BarOf(status) == Some(2);
    } else if status == "under construction" {
      assert BarOf(status) == Some(3);
    } else {
      assert BarOf(status) == None;
    }
  }

  /** Bar `i` shows the number of records whose status belongs on the bar
      labelled `BarLabels[i]`. */
  lemma {:induction false} ValuesCount(table: Table, i: int)
    requires 0 <= i < |BarLabels|
    ensures Values(TallyOf(table))[i] == Count(table, OnBar(i))
  {
    if table != [] {
      var init := table[..|table| - 1];
      var r := table[|table| - 1];
      assert table == init + [r];
      ValuesCount(init, i);
      CountSnoc(init, r, OnBar(i));
      StepBar(TallyOf(init), r.status, i);
    }
  }

  /** One pass adds one to the total exactly when the status is tallied. */
  lemma StepSum(t: Tally, status: string)
    ensures Sum(Step(t, status)) == Sum(t) + if Tallied(status) then 1 else 0
  {
  }

  /** The bars add up to at most the number of records, and to exactly that
      number when every record has one of the six tallied statuses. */
  lemma {:induction false} TallyTotal(table: Table)
    ensures Sum(TallyOf(table)) <= |table|
    ensures Sum(TallyOf(table)) == |table| <==> forall r :: r in table ==> Tallied(r.status)
  {
    if table != [] {
      var init := table[..|table| - 1];
      var r := table[|table| - 1];
      assert table == init + [r];
      TallyTotal(init);
      StepSum(TallyOf(init), r.status);
      assert forall x :: x in table <==> x in init || x == r;
    }
  }

  function Sample(status: string): Record
  {
    Record(0, "", "", 0.0, 0.0, 0.0, 0, 0, status, 0, 0, {})
  }

  /** A completed building, one topped out each way and a vision give the
      bars 1, 0, 0, 0, 2: three of the four records are shown. */
  lemma TallyExample()
    ensures var table := [Sample("completed"), Sample("structurally topped out"),
        Sample("architecturally topped out"), Sample("vision")];
      TallyOf(table) == Tally(1, 0, 0, 0, 2) && Sum(TallyOf(table)) == 3
  {
    var table := [Sample("completed"), Sample("structurally topped out"),
      Sample("architecturally topped out"), Sample("vision")];
    var t1 := table[..1];
    assert t1[..0] == [];
    assert TallyOf(t1) == Tally(1, 0, 0, 0, 0);
    var t2 := table[..2];
    assert t2[..1] == t1;
    assert TallyOf(t2) == Tally(1, 0, 0, 0, 1);
    var t3 := table[..3];
    assert t3[..2] == t2;
    assert TallyOf(t3) == Tally(1, 0, 0, 0, 2);
    assert table[..3] == t3;
  }
}
