# Skyscrapers page: a verified model of its data pipeline

`main.py` is a Streamlit page about skyscrapers. It reads a table of
buildings (name, city, coordinates, height, rank, floors, status, start and
completion years, purpose flags) and shows:

- a map of markers coloured by status, filtered by five coarse status labels;
- a city selector whose choices read "city (n)", the selected city's table
  sorted by name with a "Year completed" label, and a chart of its 24
  tallest buildings;
- a paragraph about the city's tallest building, built sentence by sentence;
- a chart of construction starts grouped into year buckets from a chosen
  start year on;
- a bar chart tallying five status categories.

This project models that pipeline in Dafny, one module per part of the page,
and proves what each part computes. The modules are:

| file | module | models |
|---|---|---|
| `seqs.dfy` | `Seqs` | `Option`, filtering, counting, mapping, a stable sort, `str.join`, substring occurrence |
| `text.dfy` | `Text` | `str(int)`, `int(str)`, `str.rstrip()`, `str.rsplit(" (", 1)[0]`, string order |
| `records.dfy` | `Records` | the record type, lookup by identifier, the ".csv" suffix rule |
| `mapview.dfy` | `MapView` | status colours, coarse labels, the marker subset |
| `citydetail.dfy` | `CityDetail` | city choices, the city table, the year label, the top 24, the tallest row |
| `summary.dfy` | `Summary` | the paragraph about the tallest building |
| `timeline.dfy` | `Timeline` | start-year buckets and their counts |
| `statustally.dfy` | `StatusTally` | the status tally loop |

Where the page changes things step by step, the model does too:

- The `.loc` overwrites of the "Year completed" column are a method on an
  array (`CityDetail.SetPlanning`).
- The `+=` construction of the paragraph is a method, proved equal to a
  decision table over the building's stage (`Summary.WriteParagraph`).
- The status tally is a loop with invariants (`StatusTally.TallyStatuses`).

Everything else is functions and lemmas.

## Model

| member | source | states |
|---|---|---|
| `Records.FindById` | main.py:216-222 | `df.loc[id]`: a found record is in the table and has that identifier; nothing is found exactly when no record has it |
| `Records.FindByIdOwn` | main.py:216-222 | with unique identifiers, looking up a record's identifier returns that record |
| `Records.CsvFileName` | main.py:26-27 | the name read always ends in ".csv"; it is the given name itself exactly when that already ends in ".csv", and otherwise the given name with ".csv" appended |
| `Records.CsvFileNameIdempotent` | main.py:26-27 | adding the suffix twice changes nothing; a name already ending in ".csv" is kept as is |
| `Text.NatToString` | main.py:156 | decimal text of a count: nonempty, digits only, no leading zero, and "0" exactly for zero |
| `Text.NatToStringRoundTrip` | main.py:156 | reading the decimal text back gives the number |
| `Text.IntToString` | main.py:187 | `str(year)`: nonempty; all digits exactly when the number is not negative; "0" exactly for zero; no leading zero, neither after a minus sign |
| `Text.IntToStringRoundTrip` | main.py:187 | `int(str(i)) == i` for every integer |
| `Text.RStrip` | main.py:166 | `rstrip()`: a prefix of the input that does not end in whitespace, having dropped only whitespace |
| `Text.LastSep` | main.py:166 | `rsplit(" (", 1)`: the position of the last `" ("`, or none when there is none |
| `Text.BeforeLastSep` | main.py:166 | `rsplit(" (", 1)[0]`: stated by `CityDetail.StripLabelRoundTrip`, which recovers the city from its choice label |
| `Text.LexLe` | main.py:157 | Python's string order: stated by `Text.LexLeTotal` and `Text.LexLeTransitive` |
| `Text.LexLeTotal` | main.py:157 | any two strings are ordered one way or the other |
| `Text.LexLeTransitive` | main.py:157 | string order is transitive |
| `MapView.Color` | main.py:88-100 | a status is drawn "black" exactly when the colour table does not list it; otherwise in one of its five colours |
| `MapView.MappingCases` | main.py:114-120 | what each coarse label stands for |
| `MapView.CoarseLabelsAreMappingKeys` | main.py:107-120 | the filter offers exactly the labels the mapping knows |
| `MapView.CoarseLabelsDisjoint` | main.py:114-120 | no raw status belongs to two coarse labels |
| `MapView.CoarseLabelsCoverColors` | main.py:88-120 | a status has a colour exactly when some coarse label covers it |
| `MapView.Expand` | main.py:122 | the expansion fails exactly when a selected label is unknown; otherwise it holds exactly the statuses of the selected labels |
| `MapView.Colored` | main.py:100 | `map(status_colors).fillna("black")`: one marker per record, in order, each in its status colour |
| `MapView.MarkerView` | main.py:100-130 | the marker subset; stated by `MapView.MarkerViewMembership` and `MapView.MarkersNeverBlack` |
| `MapView.MarkerViewMembership` | main.py:100-130 | a record is drawn exactly when the selection is nonempty, a selected label covers its status and both coordinates are nonzero; every marker is a table record in its status colour |
| `MapView.MarkersNeverBlack` | main.py:100-130 | with known labels no marker is drawn in the fallback colour |
| `MapView.ExpandExample` | main.py:114-122 | "completed" and "demolished" expand to those two statuses |
| `MapView.LocatedExample` | main.py:102-104 | a record at (0, 0) is dropped, one at (40, -70) kept |
| `MapView.TwoRecordExample` | main.py:100-130 | a completed record at (0, 0) and a demolished one at (40, -70) with both labels selected give one white marker |
| `CityDetail.Label` | main.py:156 | the choice "city (n)"; stated by `CityDetail.StripLabelRoundTrip` and `CityDetail.CityLabelsMembers` |
| `CityDetail.StripLabel` | main.py:166 | `rsplit(" (", 1)[0].rstrip()`; stated by `CityDetail.StripLabelRoundTrip` |
| `CityDetail.CityLabels` | main.py:154-157 | the sorted choice list; stated by `CityDetail.CityLabelsSorted` and `CityDetail.CityLabelsMembers` |
| `CityDetail.StripLabelRoundTrip` | main.py:154-166 | stripping "city (n)" gives back the city when the city does not end in whitespace |
| `CityDetail.DistinctCities` | main.py:154 | `unique()`: each city of the table exactly once |
| `CityDetail.CityLabelsSorted` | main.py:154-157 | the choices are in ascending string order, one per city |
| `CityDetail.CityLabelsMembers` | main.py:154-157 | a string is a choice exactly when it is "city (n)" for a city of the table and its record count n |
| `CityDetail.YearLabel` | main.py:187-191 | "planning" exactly for vision and proposed; otherwise "Uncompleted" exactly for year 0; otherwise canonical decimal text (an optional minus, then digits with no leading zero) that reads back as the year |
| `CityDetail.YearLabelExamples` | main.py:187-191 | under construction with year 0 reads "Uncompleted"; a vision reads "planning" whatever its year |
| `CityDetail.CityTable` | main.py:166-193 | the table shown for a city; stated by `CityDetail.CityTableSpec` |
| `CityDetail.CityTableSpec` | main.py:166-193 | the city table is sorted by name, has one row per record of the city, and holds exactly the rows of those records |
| `CityDetail.SetPlanning` | main.py:190-191 | rows of the given status get the label "planning"; no other row or column changes |
| `CityDetail.BuildCityTable` | main.py:166-193 | filtering, projecting, overwriting the vision and proposed rows and sorting yields the city table |
| `CityDetail.HeightSortedPairwise` | main.py:202 | in the height-sorted table each row is at least as tall as any later one |
| `CityDetail.TopHeights` | main.py:202-203 | the 24 tallest rows; stated by `CityDetail.TopHeightsOrdered` and `CityDetail.TopHeightsAreTallest` |
| `CityDetail.TopHeightsOrdered` | main.py:202-203 | the chart has min(24, n) rows, all from the table, in non-increasing height |
| `CityDetail.SortedSuffixNotTaller` | main.py:202-203 | in the height-sorted table no row past a position is taller than a row before it |
| `CityDetail.TopHeightsAreTallest` | main.py:202-203 | no row left off the chart is taller than a row on it |
| `CityDetail.TallestIndex` | main.py:215 | `idxmax`: a row of greatest height, and the first such row |
| `Summary.PurposesOf` | main.py:224-236 | the record's purposes of a category, no others |
| `Summary.CategoriesHaveNoDuplicates` | main.py:225-226 | neither purpose category lists a purpose twice |
| `Summary.PurposesInCategoryOrder` | main.py:224-236 | the purposes appear in the order of their category list |
| `Summary.ListPhrase` | main.py:249 | the ", and " list names every item |
| `Summary.ListPhraseShape` | main.py:249 | two items read "X, and Y"; longer lists put "X, " before the phrase of the rest |
| `Summary.PurposeSentence` | main.py:245-269 | a purpose sentence is empty exactly when its list is, and names every item |
| `Summary.AppendPurposes` | main.py:245-255 | one `if purposes:` block appends exactly the purpose sentence |
| `Summary.AppendContinuation` | main.py:241-269 | a started building's sentences are appended after what is there |
| `Summary.Paragraph` | main.py:238-274 | the paragraph by stage; stated by `Summary.ParagraphOpening`, `Summary.ParagraphNamesBuilding`, `Summary.ParagraphMentionsPurposes` and `Summary.WriteParagraph` |
| `Summary.WriteParagraph` | main.py:238-274 | the `+=` construction yields the paragraph of the decision table |
| `Summary.OpeningNamesBuilding` | main.py:239 | the opening sentence names the building |
| `Summary.ParagraphNamesBuilding` | main.py:238-274 | every paragraph names the building |
| `Summary.ParagraphOpening` | main.py:238-274 | the early-planning text replaces the opening; otherwise the paragraph begins with it, and is only it when a completed building has no start year |
| `Summary.MentionedInSentences` | main.py:245-269 | an item of either purpose list occurs in the two sentences after the first |
| `Summary.ParagraphMentionsPurposes` | main.py:241-269 | a started building's paragraph names every purpose of both lists |
| `Summary.NarrativeTallest` | main.py:201-238 | with unique identifiers: `idxmax` fails exactly when the city has no records; the lookup never fails; no paragraph (the `if st_selected_city:` guard) exactly when the choice strips to "" and that city has records; a paragraph exactly when the stripped city is nonempty and has records; the paragraph is about a record of the city of greatest height, the first such in name order |
| `Summary.NarrativeFor` | main.py:201-274 | the paragraph for a chosen city; stated by `Summary.NarrativeTallest` |
| `Timeline.Bucket` | main.py:293 | the bucket is a multiple of the width and holds the year |
| `Timeline.BucketUnique` | main.py:293 | the bucket is the only multiple of the width within a width below the year |
| `Timeline.Counted` | main.py:286-296 | the records counted; stated by `Timeline.CountedMembers` |
| `Timeline.CountedMembers` | main.py:286-296 | counted are exactly the records started in or after the start year |
| `Timeline.AddTo` | main.py:298 | adding a bucket keeps the series ascending and positive and raises that bucket's count by one |
| `Timeline.AscendingBelow` | main.py:298 | a bucket below the first of an ascending series has no entry |
| `Timeline.Group` | main.py:298 | `groupby().size()`: ascending buckets, positive counts, each bucket's count its number of occurrences, counts adding up to the input length |
| `Timeline.CountOfEntry` | main.py:298 | each entry of an ascending series is its bucket's count |
| `Timeline.CountOfHasEntry` | main.py:298 | a bucket with a nonzero count has an entry |
| `Timeline.BucketMultiplicity` | main.py:293-298 | a bucket occurs once per record that falls in it |
| `Timeline.Histogram` | main.py:286-298 | the bucket series; stated by `Timeline.HistogramShape`, `Timeline.HistogramCounts`, `Timeline.HistogramBuckets` and `Timeline.HistogramCoversRecords` |
| `Timeline.HistogramShape` | main.py:286-298 | buckets ascending, counts positive, counts adding up to the counted records |
| `Timeline.HistogramCounts` | main.py:286-298 | each bucket's count is the number of counted records in it |
| `Timeline.HistogramBuckets` | main.py:286-298 | each plotted bucket is a multiple of the width holding some counted record's start year |
| `Timeline.HistogramCoversRecords` | main.py:286-298 | every counted record's bucket is plotted |
| `Timeline.MinStartedYear` | main.py:288 | the earliest known start year, present exactly when some record has one |
| `Timeline.CutoffAtMinimumKeepsAll` | main.py:288-296 | the slider's default start year cuts no started record |
| `Timeline.BucketExamples` | main.py:293 | 1955 is in the 1950 bucket for width 10 and in 1955 for width 1 |
| `Timeline.GroupSingle` | main.py:298 | one bucket groups into one entry of count 1 |
| `Timeline.CountedExample` | main.py:286-296 | from 1950 on, a 1955 start is counted and a 1949 start is not |
| `Timeline.CutoffExample` | main.py:286-298 | from 1950 with width 10, a 1955 start is counted in 1950 and a 1949 start is not counted |
| `StatusTally.TallyOf` | main.py:312-333 | the counters after the loop; stated by `StatusTally.TallyOfCounts`, `StatusTally.ValuesCount` and `StatusTally.TallyTotal` |
| `StatusTally.Values` | main.py:335-337 | one bar value per label, in label order |
| `StatusTally.BarOf` | main.py:321-333 | a status has a bar exactly when one of the six tallied statuses; the bar is a label position |
| `StatusTally.StepBar` | main.py:321-333 | one pass raises exactly the bar of the status by one |
| `StatusTally.ValuesCount` | main.py:312-337 | bar i shows the number of records whose status belongs under the label `BarLabels[i]`, both topped-out statuses under "topped out" |
| `StatusTally.TallyOfCounts` | main.py:312-333 | each bar counts the records of its status; "topped out" counts both topped-out statuses |
| `StatusTally.TallyStatuses` | main.py:312-333 | the loop leaves each counter at its status count |
| `StatusTally.StepSum` | main.py:321-333 | one pass adds one to the total exactly when the status is tallied |
| `StatusTally.TallyTotal` | main.py:312-333 | the bars add up to at most the number of records, and to exactly that when every status is one of the six tallied |
| `StatusTally.TallyExample` | main.py:312-333 | completed, two topped-out statuses and a vision give bars 1, 0, 0, 0, 2 |
| `Seqs.Filter` | main.py:102-124 | a filter keeps exactly the elements that pass, never more often than they occur |
| `Seqs.FilterAll` | main.py:296 | a filter every element passes changes nothing |
| `Seqs.FilterIndices` | main.py:102-124 | a filter result is a subsequence of its input: its elements stand at strictly increasing input positions |
| `Seqs.FilterKeepsOrder` | main.py:224-236 | on a list without repeats, an earlier filter result stands earlier in the input |
| `Seqs.SortBy` | main.py:157 | the sort; stated by `Seqs.SortBySorted` and `Seqs.SortByMembers` |
| `Seqs.SortBySorted` | main.py:157 | the sort is ordered and a permutation of its input |
| `Seqs.SortByMembers` | main.py:157 | sorting keeps exactly the elements it was given |
| `Seqs.Join` | main.py:249 | `", ".join`; stated by `Seqs.JoinSnoc` and `Seqs.JoinMentions` |
| `Seqs.JoinSnoc` | main.py:249 | joining one more item adds the separator and the item |
| `Seqs.JoinMentions` | main.py:249 | every item occurs in the joined text |

## Left out

- The Streamlit page itself: page setup, CSS, widgets and the HTML embed. The slider values, the label selection and the city choice are parameters.
- The folium map and its markers, the map centre (a float mean) and all matplotlib charts.
- Reading the CSV file with pandas: the table is a parameter. Only the ".csv" suffix rule is modelled.
- Missing values (`dropna`, NaN): every field is present in the model.
- The default city "New York City", a UI default.
- `Summary.NarrativeFor`: the `:.2f` height formatting is a parameter `formatHeight`, as floating-point formatting is out of scope.
- Heights and coordinates are `real`; the model only compares them.
- `Seqs.SortBy`: the sort is stable. pandas' default sort is not stable, so rows of equal name or height may appear in another order on the page. The sortedness and permutation lemmas hold for every such order.
- `MapView.MarkerView`: the frame aliasing of `df_map = df`, which adds the colour column to the base frame, is not modelled; the marker view is a derived sequence.
- `Timeline.MinStartedYear`: with no started record pandas returns NaN and the slider fails; the model returns `None`.
- `Text.IsSpace`: `rstrip()` strips the characters Python's `str.isspace()` accepts; the set is written out by code point.
- `Records.FindById`: the lookup returns the first record with the identifier; the lemmas about it assume unique identifiers, as the index column has.

## Notes on the behaviour modelled

Where the documented behaviour of the page and its code differ, the model
follows the code:

- The tallest building is the first row of greatest height in the
  name-sorted city table (`idxmax` after `sort_values(by="Name")`), not the
  first in the original table order.
- With several "other" purposes the sentence reads "Additionally, it serves
  X, and Y purposes." and, when not completed, "Additionally, it is planned
  to serve ..."; only a single purpose uses "has" / "planned to have".
- A building under construction reads "has not completed and currently is
  [status]".
- A map row is dropped when either coordinate is 0, not only at (0, 0).
- An unknown city gives an empty city table; `idxmax` then fails, which the
  model reports as `NoRows`.
