/** The "Skyscrapers by city" panel: the city choices "city (n)", the
    city's detail table sorted by name with its year-completed label, the
    24 tallest rows for the bar chart and the tallest row of the city. */
module CityDetail {
  import opened Seqs
  import opened Text
  import opened Records

  // ---------------------------------------------------------------------
  // City choices

  /** The choice shown for a city with `n` skyscrapers: "city (n)". */
  function Label(city: string, n: nat): string
  {
    city + " (" + NatToString(n) + ")"
  }

  /** `choice.rsplit(" (", 1)[0].rstrip()`: the city a choice names. */
  function StripLabel(choice: string): string
  {
    RStrip(BeforeLastSep(choice))
  }

  /** Stripping a choice gives back the city, provided the city name does
      not itself end in whitespace. */
  lemma StripLabelRoundTrip(city: string, n: nat)
    requires city == [] || !IsSpace(city[|city| - 1])
    ensures StripLabel(Label(city, n)) == city
  {
    var digits := NatToString(n);
    var choice := Label(city, n);
    assert choice == city + [' ', '('] + digits + [')'];
    assert SepAt(choice, |city|);
    forall q | |city| < q
      ensures !SepAt(choice, q)
    {
      if q + 1 < |choice| {
        assert choice[q] == '(' || choice[q] == ')' || IsDigit(choice[q]) by {
          if q == |city| + 1 {
          } else if q < |choice| - 1 {
            assert choice[q] == digits[q - |city| - 2];
          }
        }
      }
    }
    assert LastSep(choice) == Some(|city|);
    assert BeforeLastSep(choice) == city;
  }

  predicate HasCity(city: string, r: Record)
  {
    r.city == city
  }

  function InCity(city: string): Record -> bool
  {
    (r: Record) => HasCity(city, r)
  }

  /** `value_counts()[city]`: the number of skyscrapers in a city. */
  function CityCount(table: Table, city: string): nat
  {
    Count(table, InCity(city))
  }

  /** `unique()`: each city once, in order of first appearance. */
  function DistinctCities(table: Table): (cs: seq<string>)
    ensures forall c :: c in cs <==> exists r :: r in table && r.city == c
    ensures forall i, j :: 0 <= i < j < |cs| ==> cs[i] != cs[j]
  {
    if table == [] then []
    else
      var init := table[..|table| - 1];
      var last := table[|table| - 1];
      assert table == init + [last];
      var cs := DistinctCities(init);
      if last.city in cs then cs else cs + [last.city]
  }

  /** The choice of each city of the table. */
  function ChoiceOf(table: Table): string -> string
  {
    (c: string) => Label(c, CityCount(table, c))
  }

  /** The sorted list of choices, one per city. */
  function CityLabels(table: Table): seq<string>
  {
    SortBy(MapSeq(DistinctCities(table), ChoiceOf(table)), LexLe)
  }

  lemma LexLeIsTotal()
    ensures Total(LexLe)
  {
    forall a: string, b: string
      ensures LexLe(a, b) || LexLe(b, a)
    {
      LexLeTotal(a, b);
    }
  }

  /** The choices are in ascending string order, one per city. */
  lemma CityLabelsSorted(table: Table)
    ensures SortedBy(CityLabels(table), LexLe)
    ensures |CityLabels(table)| == |DistinctCities(table)|
  {
    LexLeIsTotal();
    SortBySorted(MapSeq(DistinctCities(table), ChoiceOf(table)), LexLe);
  }

  /** A string is offered as a choice exactly when it names a city of the
      table together with that city's number of skyscrapers. */
  lemma CityLabelsMembers(table: Table, choice: string)
    ensures choice in CityLabels(table) <==>
      exists r :: r in table && choice == Label(r.city, CityCount(table, r.city))
  {
    var cs := DistinctCities(table);
    SortByMembers(MapSeq(cs, ChoiceOf(table)), LexLe, choice);
    MapSeqMembers(cs, ChoiceOf(table), choice);
    if c :| c in cs && choice == ChoiceOf(table)(c) {
      var r :| r in table && r.city == c;
    }
    if r :| r in table && choice == Label(r.city, CityCount(table, r.city)) {
      assert r.city in cs && choice == ChoiceOf(table)(r.city);
    }
  }

  // ---------------------------------------------------------------------
  // The city's detail table

  /** A row of the detail table: the record's identifier (the frame index)
      and the five columns shown. */
  datatype CityRow = CityRow(
    id: int,
    name: string,
    height: real,
    rank: int,
    yearCompleted: string,
    status: string
  )

  predicate IsPlanned(status: string)
  {
    status == "vision" || status == "proposed"
  }

  /** The first rewrite of the completed year: "Uncompleted" for 0, else the year. */
  function YearText(year: int): string
  {
    if year == 0 then "Uncompleted" else IntToString(year)
  }

  /** The label the detail table shows in its "Year completed" column. The
      label says which case applied, and a year can be read back from it. */
  function YearLabel(year: int, status: string): (yl: string)
    ensures yl == "planning" <==> IsPlanned(status)
    ensures yl == "Uncompleted" <==> !IsPlanned(status) && year == 0
    ensures !IsPlanned(status) && year != 0 ==>
      && yl != []
      && (AllDigits(yl) || (yl[0] == '-' && AllDigits(yl[1..])))
      && IntValue(yl) == year
      && yl[0] != '0' && (yl[0] == '-' ==> yl[1] != '0')
  {
    if IsPlanned(status) then "planning"
    else
      IntToStringRoundTrip(year);
      assert IsDigit(IntToString(year)[0]) || IntToString(year)[0] == '-';
      YearText(year)
  }

  /** A record under construction with no completion year is shown as
      "Uncompleted"; a vision is shown as "planning" whatever its year. */
  lemma YearLabelExamples()
    ensures YearLabel(0, "under construction") == "Uncompleted"
    ensures YearLabel(0, "vision") == "planning"
    ensures YearLabel(2010, "vision") == "planning"
  {
  }

  /** The detail row of a record, with its final year label. */
  function ToRow(r: Record): CityRow
  {
    CityRow(r.id, r.name, r.height, r.rank, YearLabel(r.completedYear, r.status), r.status)
  }

  predicate NameLe(a: CityRow, b: CityRow)
  {
    LexLe(a.name, b.name)
  }

  /** The detail table of a city: its records as rows, sorted by name. */
  function CityTable(table: Table, city: string): seq<CityRow>
  {
    SortBy(MapSeq(Filter(table, InCity(city)), ToRow), NameLe)
  }

  /** The detail table holds exactly one row per record of the city, is in
      ascending name order, and its rows carry their records' year labels. */
  lemma CityTableSpec(table: Table, city: string)
    ensures SortedBy(CityTable(table, city), NameLe)
    ensures |CityTable(table, city)| == CityCount(table, city)
    ensures forall row :: row in CityTable(table, city) <==>
      exists r :: r in table && r.city == city && row == ToRow(r)
  {
    var rs := Filter(table, InCity(city));
    var rows := MapSeq(rs, ToRow);
    assert Total(NameLe) by {
      forall a: CityRow, b: CityRow
        ensures NameLe(a, b) || NameLe(b, a)
      {
        LexLeTotal(a.name, b.name);
      }
    }
    SortBySorted(rows, NameLe);
    forall row
      ensures row in CityTable(table, city) <==> exists r :: r in table && r.city == city && row == ToRow(r)
    {
      SortByMembers(rows, NameLe, row);
      MapSeqMembers(rs, ToRow, row);
    }
  }

  /** `.loc[status == s, "Year completed"] = "planning"`: overwrites the
      year choice of the rows with status `s`, in place. */
  method SetPlanning(a: array<CityRow>, s: string)
    modifies a
    ensures forall i :: 0 <= i < a.Length ==>
      a[i] == if old(a[i]).status == s then old(a[i]).(yearCompleted := "planning") else old(a[i])
  {
    forall i | 0 <= i < a.Length && a[i].status == s {
      a[i] := a[i].(yearCompleted := "planning");
    }
  }

  /** Builds the detail table as the page does: filter, project with the
      numeric year text, overwrite "vision" then "proposed" rows with
      "planning", sort by name. */
  method BuildCityTable(table: Table, city: string) returns (rows: seq<CityRow>)
    ensures rows == CityTable(table, city)
  {
    var rs := Filter(table, InCity(city));
    var a := new CityRow[|rs|](i requires 0 <= i < |rs| =>
      CityRow(rs[i].id, rs[i].name, rs[i].height, rs[i].rank, YearText(rs[i].completedYear), rs[i].status));
    SetPlanning(a, "vision");
    SetPlanning(a, "proposed");
    assert a[..] == MapSeq(rs, ToRow) by {
      forall i | 0 <= i < |rs|
        ensures a[i] == ToRow(rs[i])
      {
      }
    }
    rows := SortBy(a[..], NameLe);
  }

  // ---------------------------------------------------------------------
  // Heights

  predicate HeightGe(a: CityRow, b: CityRow)
  {
    a.height >= b.height
  }

  function Min(a: int, b: int): int
  {
    if a < b then a else b
  }

  /** `sort_values("Height", ascending=False).head(24)`. */
  function TopHeights(rows: seq<CityRow>): seq<CityRow>
  {
    var s := SortBy(rows, HeightGe);
    s[..Min(24, |s|)]
  }

  /** In a height-sorted sequence every row is at least as tall as any later one. */
  lemma HeightSortedPairwise(s: seq<CityRow>, i: int, j: int)
    requires SortedBy(s, HeightGe)
    requires 0 <= i <= j < |s|
    ensures s[i].height >= s[j].height
  {
    SortedByPairwise(s, HeightGe, i, j);
  }

  lemma HeightGeIsTotal()
    ensures Total(HeightGe)
  {
  }

  /** The chart shows min(24, n) rows of the table, tallest first. */
  lemma TopHeightsOrdered(rows: seq<CityRow>)
    ensures |TopHeights(rows)| == Min(24, |rows|)
    ensures multiset(TopHeights(rows)) <= multiset(rows)
    ensures forall i, j :: 0 <= i < j < |TopHeights(rows)| ==> TopHeights(rows)[i].height >= TopHeights(rows)[j].height
  {
    var s := SortBy(rows, HeightGe);
    var k := Min(24, |s|);
    assert TopHeights(rows) == s[..k];
    HeightGeIsTotal();
    SortBySorted(rows, HeightGe);
    PrefixRemainder(s, k);
    forall i, j | 0 <= i < j < k
      ensures s[i].height >= s[j].height
    {
      HeightSortedPairwise(s, i, j);
    }
  }

  /** In a height-sorted sequence no row after position `k` is taller than
      a row before it. */
  lemma SortedSuffixNotTaller(s: seq<CityRow>, k: int, x: CityRow, i: int)
    requires SortedBy(s, HeightGe)
    requires 0 <= i < k <= |s|
    requires x in multiset(s[k..])
    ensures x.height <= s[i].height
  {
    var j :| k <= j < |s| && s[j] == x;
    HeightSortedPairwise(s, i, j);
  }

  /** No row left off the chart is taller than a row shown on it. */
  lemma TopHeightsAreTallest(rows: seq<CityRow>, x: CityRow, i: int)
    requires x in multiset(rows) - multiset(TopHeights(rows))
    requires 0 <= i < |TopHeights(rows)|
    ensures x.height <= TopHeights(rows)[i].height
  {
    var s := SortBy(rows, HeightGe);
    var k := Min(24, |s|);
    assert TopHeights(rows) == s[..k];
    HeightGeIsTotal();
    SortBySorted(rows, HeightGe);
    PrefixRemainder(s, k);
    SortedSuffixNotTaller(s, k, x, i);
  }

  /** `idxmax` over the height column: the first row of greatest height. */
  function TallestIndex(rows: seq<CityRow>): (p: nat)
    requires rows != []
    ensures p < |rows|
    ensures forall j :: 0 <= j < |rows| ==> rows[j].height <= rows[p].height
    ensures forall j :: 0 <= j < p ==> rows[j].height < rows[p].height
  {
    if |rows| == 1 then 0
    else
      var q := TallestIndex(rows[..|rows| - 1]);
      if rows[|rows| - 1].height > rows[q].height then |rows| - 1 else q
  }
}
