/** The map of skyscrapers: a colour per raw status, the five coarse status
    labels offered for filtering and what each expands to, and the
    marker subset that the map draws. */
module MapView {
  import opened Seqs
  import opened Records

  /** Marker colour of each raw status. */
  const StatusColors: map<string, string> := map[
    "completed" := "green",
    "under construction" := "red",
    "on hold" := "red",
    "never completed" := "red",
    "vision" := "grey",
    "proposed" := "grey",
    "architecturally topped out" := "yellow",
    "structurally topped out" := "yellow",
    "demolished" := "white"
  ]

  /** The coarse labels, in the order the filter offers them. */
  const CoarseLabels: seq<string> := ["completed", "incomplete", "planned", "topped out", "demolished"]

  /** The raw statuses each coarse label stands for. */
  const StatusMapping: map<string, seq<string>> := map[
    "completed" := ["completed"],
    "incomplete" := ["on hold", "under construction", "never completed"],
    "planned" := ["vision", "proposed"],
    "topped out" := ["architecturally topped out", "structurally topped out"],
    "demolished" := ["demolished"]
  ]

  /** `status_colors` with unlisted statuses filled in as "black". */
  function Color(status: string): (c: string)
    ensures c == "black" <==> status !in StatusColors
    ensures c in {"green", "red", "grey", "yellow", "white", "black"}
  {
    if status in StatusColors then StatusColors[status] else "black"
  }

  /** The raw statuses a coarse label stands for: `status_mapping` as a case split. */
  lemma MappingCases(l: string, s: string)
    requires l in StatusMapping && s in StatusMapping[l]
    ensures l == "completed" ==> s == "completed"
    ensures l == "incomplete" ==> s == "on hold" || s == "under construction" || s == "never completed"
    ensures l == "planned" ==> s == "vision" || s == "proposed"
    ensures l == "topped out" ==> s == "architecturally topped out" || s == "structurally topped out"
    ensures l == "demolished" ==> s == "demolished"
  {
  }

  /** The filter offers exactly the labels the mapping knows. */
  lemma CoarseLabelsAreMappingKeys()
    ensures StatusMapping.Keys == set l | l in CoarseLabels
  {
  }

  /** No raw status belongs to two coarse labels. */
  lemma CoarseLabelsDisjoint(l1: string, l2: string, s: string)
    requires l1 in StatusMapping && l2 in StatusMapping
    requires s in StatusMapping[l1] && s in StatusMapping[l2]
    ensures l1 == l2
  {
    MappingCases(l1, s);
    MappingCases(l2, s);
  }

  /** Together the coarse labels cover exactly the nine coloured statuses. */
  lemma CoarseLabelsCoverColors(s: string)
    ensures s in StatusColors <==> exists l :: l in StatusMapping && s in StatusMapping[l]
  {
    if s in StatusColors {
      var l := if s == "completed" then "completed"
        else if s in ["on hold", "under construction", "never completed"] then "incomplete"
        else if s in ["vision", "proposed"] then "planned"
        else if s in ["architecturally topped out", "structurally topped out"] then "topped out"
        else "demolished";
      assert s in StatusMapping[l];
    }
    if l :| l in StatusMapping && s in StatusMapping[l] {
      MappingCases(l, s);
    }
  }

  /** The raw statuses the selected labels stand for, in selection order;
      `None` when a label is not one of the five (a failed lookup). */
  function Expand(selected: seq<string>): (r: Option<seq<string>>)
    ensures r.Some? <==> forall l :: l in selected ==> l in StatusMapping
    ensures r.Some? ==> forall s :: s in r.value <==> exists l :: l in selected && l in StatusMapping && s in StatusMapping[l]
  {
    if selected == [] then Some([])
    else if selected[0] !in StatusMapping then None
    else match Expand(selected[1..])
      case None => None
      case Some(rest) =>
        assert forall l :: l in selected <==> l == selected[0] || l in selected[1..];
        Some(StatusMapping[selected[0]] + rest)
  }

  /** A row of the map frame: the record and the colour column added to it. */
  datatype Marker = Marker(record: Record, color: string)

  /** Every record with its colour attached, in table order. */
  function Colored(table: Table): (ms: seq<Marker>)
    ensures |ms| == |table|
    ensures forall i :: 0 <= i < |table| ==> ms[i] == Marker(table[i], Color(table[i].status))
  {
    seq(|table|, i requires 0 <= i < |table| => Marker(table[i], Color(table[i].status)))
  }

  /** Neither coordinate is 0: the row can be placed on the map. */
  predicate Plottable(m: Marker)
  {
    m.record.latitude != 0.0 && m.record.longitude != 0.0
  }

  function StatusIn(show: seq<string>): Marker -> bool
  {
    (m: Marker) => m.record.status in show
  }

  /** The markers the map draws for a selection of coarse labels. */
  function MarkerView(table: Table, selected: seq<string>): Option<seq<Marker>>
  {
    var located := Filter(Colored(table), Plottable);
    match Expand(selected)
    case None => None
    case Some(show) => if selected == [] then Some([]) else Some(Filter(located, StatusIn(show)))
  }

  /** A record is drawn exactly when some label is selected, one of them
      covers its status and both its coordinates are nonzero; it is drawn in
      its status colour, and so is every marker. */
  lemma MarkerViewMembership(table: Table, selected: seq<string>, r: Record)
    requires forall l :: l in selected ==> l in StatusMapping
    ensures MarkerView(table, selected).Some?
    ensures Marker(r, Color(r.status)) in MarkerView(table, selected).value <==>
      r in table && selected != [] && r.latitude != 0.0 && r.longitude != 0.0
      && exists l :: l in selected && r.status in StatusMapping[l]
    ensures forall m :: m in MarkerView(table, selected).value ==> m.record in table && m.color == Color(m.record.status)
  {
    var show := Expand(selected).value;
    var ms := Colored(table);
    var located := Filter(ms, Plottable);
    var m := Marker(r, Color(r.status));
    assert m in ms <==> r in table by {
      if r in table {
        var i :| 0 <= i < |table| && table[i] == r;
        assert ms[i] == m;
      }
    }
    assert r.status in show <==> exists l :: l in selected && r.status in StatusMapping[l];
    if selected != [] {
      assert MarkerView(table, selected).value == Filter(located, StatusIn(show));
      assert m in Filter(located, StatusIn(show)) <==> m in located && r.status in show;
    }
    forall x | x in MarkerView(table, selected).value
      ensures x.record in table && x.color == Color(x.record.status)
    {
      assert x in ms;
      var i :| 0 <= i < |ms| && ms[i] == x;
    }
  }

  /** With a valid selection no marker is drawn in the fallback colour. */
  lemma MarkersNeverBlack(table: Table, selected: seq<string>)
    requires forall l :: l in selected ==> l in StatusMapping
    ensures forall m :: m in MarkerView(table, selected).value ==> m.color != "black"
  {
    var show := Expand(selected).value;
    forall m | m in MarkerView(table, selected).value
      ensures m.color != "black"
    {
      MarkerViewMembership(table, selected, m.record);
      assert m.record.status in show;
      var l :| l in selected && l in StatusMapping && m.record.status in StatusMapping[l];
      CoarseLabelsCoverColors(m.record.status);
    }
  }

  /** Selecting "completed" and "demolished" shows exactly those two statuses. */
  lemma ExpandExample()
    ensures Expand(["completed", "demolished"]) == Some(["completed", "demolished"])
  {
    var rest: seq<string> := [];
    assert Expand(rest) == Some([]);
    assert ["demolished"][1..] == rest;
    assert "demolished" in StatusMapping && StatusMapping["demolished"] == ["demolished"];
    assert ["demolished"] + [] == ["demolished"];
    assert Expand(["demolished"]) == Some(["demolished"]);
    assert ["completed", "demolished"][1..] == ["demolished"];
    assert "completed" in StatusMapping && StatusMapping["completed"] == ["completed"];
    assert ["completed"] + ["demolished"] == ["completed", "demolished"];
  }

  /** Of a record at (0, 0) and one at (40, -70), only the second can be
      placed on the map. */
  lemma LocatedExample(a: Record, b: Record)
    requires a.latitude == 0.0 && a.longitude == 0.0
    requires b.latitude == 40.0 && b.longitude == -70.0
    ensures Filter(Colored([a, b]), Plottable) == [Marker(b, Color(b.status))]
  {
    var ms := Colored([a, b]);
    assert ms[..1] == [ms[0]];
    assert [ms[0]][..0] == [];
    assert !Plottable(ms[0]) && Plottable(ms[1]);
  }

  /** A completed record at (0, 0) and a demolished one at (40, -70), with
      "completed" and "demolished" selected: only the demolished one is
      drawn, in white. */
  lemma TwoRecordExample(a: Record, b: Record)
    requires a.status == "completed" && a.latitude == 0.0 && a.longitude == 0.0
    requires b.status == "demolished" && b.latitude == 40.0 && b.longitude == -70.0
    ensures MarkerView([a, b], ["completed", "demolished"]) == Some([Marker(b, "white")])
  {
    var selected := ["completed", "demolished"];
    var show := ["completed", "demolished"];
    var m := Marker(b, Color(b.status));
    LocatedExample(a, b);
    ExpandExample();
    FilterSingleton(m, StatusIn(show));
    assert Color("demolished") == "white";
  }
}
