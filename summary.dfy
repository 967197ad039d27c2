/** The paragraph about the tallest skyscraper of the selected city. The
    page builds it with successive `+=`; here that construction is a method,
    proved equal to a decision table over four stages of the building. */
module Summary {
  import opened Seqs
  import opened Text
  import opened Records
  import opened CityDetail

  /** Purposes read as "serves as ..." / "planned to serve as ...", in this order. */
  const LocationPurposes: seq<string> := ["museum", "casino", "library", "air traffic control tower", "hotel", "office"]

  /** Purposes read as "... purposes", in this order. */
  const OtherPurposes: seq<string> := ["retail", "industrial", "residential", "commercial"]

  function Flagged(flags: set<string>): string -> bool
  {
    (p: string) => p in flags
  }

  /** The purposes of a category that a record has, in category order. */
  function PurposesOf(category: seq<string>, flags: set<string>): (ps: seq<string>)
    ensures forall p :: p in ps <==> p in category && p in flags
    ensures |ps| <= |category|
  {
    Filter(category, Flagged(flags))
  }

  /** Neither purpose category lists a purpose twice. */
  lemma CategoriesHaveNoDuplicates()
    ensures NoDuplicates(LocationPurposes) && NoDuplicates(OtherPurposes)
  {
  }

  /** The purposes come out in the category's order, so none is repeated. */
  lemma PurposesInCategoryOrder(category: seq<string>, flags: set<string>)
    requires NoDuplicates(category)
    ensures var ps := PurposesOf(category, flags);
      forall i, j :: 0 <= i < j < |ps| ==>
        ps[i] in category && ps[j] in category && IndexOf(category, ps[i]) < IndexOf(category, ps[j])
  {
    var ps := PurposesOf(category, flags);
    forall i, j | 0 <= i < j < |ps|
      ensures ps[i] in category && ps[j] in category && IndexOf(category, ps[i]) < IndexOf(category, ps[j])
    {
      FilterKeepsOrder(category, Flagged(flags), i, j);
    }
  }

  /** "X, Y, and Z": all but the last item joined by ", ", then ", and " and the last. */
  function ListPhrase(items: seq<string>): (phrase: string)
    requires |items| >= 2
    ensures forall x :: x in items ==> Occurs(x, phrase)
  {
    var init := items[..|items| - 1];
    var last := items[|items| - 1];
    var phrase := Join(", ", init) + ", and " + last;
    assert forall x :: x in items ==> Occurs(x, phrase) by {
      forall x | x in items
        ensures Occurs(x, phrase)
      {
        if x == last {
          assert Occurs(x, x) by { assert x <= x; }
          OccursRight(x, Join(", ", init) + ", and ", x);
        } else {
          assert x in init;
          JoinMentions(", ", init, x);
          OccursLeft(x, Join(", ", init), ", and " + last);
          assert Join(", ", init) + (", and " + last) == phrase;
        }
      }
    }
    phrase
  }

  /** Two items are joined by ", and "; a longer list puts its first item
      and ", " before the phrase of the rest (the serial comma). */
  lemma {:induction false} ListPhraseShape(items: seq<string>)
    requires |items| >= 2
    ensures |items| == 2 ==> ListPhrase(items) == items[0] + ", and " + items[1]
    ensures |items| > 2 ==> ListPhrase(items) == items[0] + ", " + ListPhrase(items[1..])
  {
    var init := items[..|items| - 1];
    if |items| == 2 {
      assert init == [items[0]];
    } else {
      assert init[1..] == items[1..][..|items| - 2];
      assert |init| > 1;
    }
  }

  /** A sentence about a purpose list: its wording for one item, for
      several items, and its ending. */
  datatype Template = Template(one: string, many: string, tail: string)

  const BuiltLocation := Template("The building serves as a ", "The building serves as ", ". ")
  const BuiltOther := Template("Additionally, it has ", "Additionally, it serves ", " purposes. ")
  const PlannedLocation := Template("It is planned to serve as a ", "It is planned to serve as ", ". ")
  const PlannedOther := Template("Additionally, it is planned to have ", "Additionally, it is planned to serve ", " purposes. ")

  /** The sentence for a purpose list; nothing for an empty list. */
  function PurposeSentence(items: seq<string>, t: Template): (sentence: string)
    requires t.tail != []
    ensures items == [] <==> sentence == []
    ensures forall x :: x in items ==> Occurs(x, sentence)
  {
    if items == [] then ""
    else if |items| == 1 then
      OccursAround(items[0], t.one, t.tail);
      t.one + items[0] + t.tail
    else
      var phrase := ListPhrase(items);
      assert forall x :: x in items ==> Occurs(x, t.many + phrase + t.tail) by {
        forall x | x in items
          ensures Occurs(x, t.many + phrase + t.tail)
        {
          OccursRight(x, t.many, phrase);
          OccursLeft(x, t.many + phrase, t.tail);
        }
      }
      t.many + phrase + t.tail
  }

  /** What is known about the building's construction, which decides the paragraph. */
  datatype Stage =
    | Finished     // construction started and completed
    | Underway     // construction started, not completed
    | EarlyPlanning // not started, and the status is not "completed"
    | Unrecorded   // not started, yet the status is "completed"

  function StageOf(started: int, completed: int, status: string): Stage
  {
    if started != 0 then (if completed != 0 then Finished else Underway)
    else if status != "completed" then EarlyPlanning
    else Unrecorded
  }

  function Opening(city: string, r: Record, heightText: string): string
  {
    "The tallest skyscraper in " + city + " is the '" + r.name
      + ("' standing at " + heightText + " meters, or " + IntToString(r.floorsAbove) + " floors above sea level. ")
  }

  function SpanSentence(started: int, completed: int): string
  {
    "The building began construction in " + IntToString(started) + " and was finished "
      + IntToString(completed - started) + " years later in " + IntToString(completed) + ". "
  }

  function UnderwaySentence(status: string): string
  {
    "The building has not completed and currently is " + status + ". "
  }

  function PlanningText(city: string, r: Record, heightText: string): string
  {
    "The " + r.name
      + (" is currently in the early planning stage, but it is set to be the tallest skyscraper in "
        + city + " at " + heightText + " meters, or " + IntToString(r.floorsAbove) + " floors above sea level. "
        + "However, the " + r.name + " is in the " + r.status + " stage, so it's unsure whether it will live up to the expectations.")
  }

  /** What a started building's paragraph says after the opening sentence. */
  function Continuation(r: Record, loc: seq<string>, other: seq<string>): string
  {
    match StageOf(r.startedYear, r.completedYear, r.status)
    case Finished =>
      SpanSentence(r.startedYear, r.completedYear)
        + PurposeSentence(loc, BuiltLocation) + PurposeSentence(other, BuiltOther)
    case Underway =>
      UnderwaySentence(r.status)
        + PurposeSentence(loc, PlannedLocation) + PurposeSentence(other, PlannedOther)
    case _ => ""
  }

  /** The paragraph as a decision table over the building's stage: the
      early-planning text, or the opening sentence and its continuation. */
  function Paragraph(city: string, r: Record, heightText: string, loc: seq<string>, other: seq<string>): string
  {
    if StageOf(r.startedYear, r.completedYear, r.status) == EarlyPlanning then PlanningText(city, r, heightText)
    else Opening(city, r, heightText) + Continuation(r, loc, other)
  }

  /** Appends the sentence about a purpose list, as each of the page's
      four `if purposes: if len(purposes) == 1: ... else: ...` blocks does. */
  method AppendPurposes(summary: string, items: seq<string>, t: Template) returns (s: string)
    requires t.tail != []
    ensures s == summary + PurposeSentence(items, t)
  {
    s := summary;
    if items != [] {
      if |items| == 1 {
        s := s + (t.one + items[0] + t.tail);
      } else {
        s := s + (t.many + ListPhrase(items) + t.tail);
      }
    }
  }

  /** The part of the page's construction for a started building: append
      the construction sentence and the two purpose sentences. */
  method AppendContinuation(summary: string, r: Record, loc: seq<string>, other: seq<string>) returns (s: string)
    requires r.startedYear != 0
    ensures s == summary + Continuation(r, loc, other)
  {
    var first, tl, to;
    if r.completedYear != 0 {
      first, tl, to := SpanSentence(r.startedYear, r.completedYear), BuiltLocation, BuiltOther;
    } else {
      first, tl, to := UnderwaySentence(r.status), PlannedLocation, PlannedOther;
    }
    s := summary + first;
    s := AppendPurposes(s, loc, tl);
    s := AppendPurposes(s, other, to);
    ConcatAssoc(summary, first, PurposeSentence(loc, tl));
    ConcatAssoc(summary, first + PurposeSentence(loc, tl), PurposeSentence(other, to));
  }

  /** The page's construction of the paragraph: start from the opening
      sentence and append, or replace it in the early-planning case. */
  method WriteParagraph(city: string, r: Record, heightText: string, loc: seq<string>, other: seq<string>)
    returns (summary: string)
    ensures summary == Paragraph(city, r, heightText, loc, other)
  {
    var stage := StageOf(r.startedYear, r.completedYear, r.status);
    var opening := Opening(city, r, heightText);
    summary := opening;
    if r.startedYear != 0 {
      assert stage != EarlyPlanning;
      summary := AppendContinuation(summary, r, loc, other);
    } else if r.status != "completed" {
      assert stage == EarlyPlanning;
      summary := PlanningText(city, r, heightText);
    } else {
      assert stage == Unrecorded;
      assert summary == opening + [];
    }
  }

  /** The opening sentence names the building. */
  lemma OpeningNamesBuilding(city: string, r: Record, heightText: string)
    ensures Occurs(r.name, Opening(city, r, heightText))
  {
    OccursAround(r.name, "The tallest skyscraper in " + city + " is the '",
      "' standing at " + heightText + " meters, or " + IntToString(r.floorsAbove) + " floors above sea level. ");
  }

  /** Every paragraph names the building. */
  lemma ParagraphNamesBuilding(city: string, r: Record, heightText: string, loc: seq<string>, other: seq<string>)
    ensures Occurs(r.name, Paragraph(city, r, heightText, loc, other))
  {
    if StageOf(r.startedYear, r.completedYear, r.status) == EarlyPlanning {
      OccursAround(r.name, "The ",
        " is currently in the early planning stage, but it is set to be the tallest skyscraper in "
        + city + " at " + heightText + " meters, or " + IntToString(r.floorsAbove) + " floors above sea level. "
        + "However, the " + r.name + " is in the " + r.status + " stage, so it's unsure whether it will live up to the expectations.");
    } else {
      OpeningNamesBuilding(city, r, heightText);
      OccursLeft(r.name, Opening(city, r, heightText), Continuation(r, loc, other));
    }
  }

  /** All paragraphs but the early-planning one begin with the opening
      sentence, which is all there is when no start year is recorded for a
      completed building; the early-planning text replaces it outright. */
  lemma ParagraphOpening(city: string, r: Record, heightText: string, loc: seq<string>, other: seq<string>)
    ensures StageOf(r.startedYear, r.completedYear, r.status) != EarlyPlanning ==>
      Opening(city, r, heightText) <= Paragraph(city, r, heightText, loc, other)
    ensures StageOf(r.startedYear, r.completedYear, r.status) == Unrecorded ==>
      Paragraph(city, r, heightText, loc, other) == Opening(city, r, heightText)
    ensures StageOf(r.startedYear, r.completedYear, r.status) == EarlyPlanning ==>
      Paragraph(city, r, heightText, loc, other) == PlanningText(city, r, heightText)
  {
    if StageOf(r.startedYear, r.completedYear, r.status) != EarlyPlanning {
      var o := Opening(city, r, heightText);
      assert (o + Continuation(r, loc, other))[..|o|] == o;
    }
  }

  lemma MentionedInSentences(first: string, a: seq<string>, t1: Template, b: seq<string>, t2: Template, x: string)
    requires t1.tail != [] && t2.tail != []
    requires x in a || x in b
    ensures Occurs(x, first + PurposeSentence(a, t1) + PurposeSentence(b, t2))
  {
    if x in a {
      OccursRight(x, first, PurposeSentence(a, t1));
      OccursLeft(x, first + PurposeSentence(a, t1), PurposeSentence(b, t2));
    } else {
      OccursRight(x, first + PurposeSentence(a, t1), PurposeSentence(b, t2));
    }
  }

  /** A started building's paragraph mentions every purpose of both lists. */
  lemma ParagraphMentionsPurposes(city: string, r: Record, heightText: string, loc: seq<string>, other: seq<string>, p: string)
    requires r.startedYear != 0
    requires p in loc || p in other
    ensures Occurs(p, Paragraph(city, r, heightText, loc, other))
  {
    var o := Opening(city, r, heightText);
    if r.completedYear != 0 {
      var first := SpanSentence(r.startedYear, r.completedYear);
      MentionedInSentences(first, loc, BuiltLocation, other, BuiltOther, p);
      OccursRight(p, o, first + PurposeSentence(loc, BuiltLocation) + PurposeSentence(other, BuiltOther));
    } else {
      var first := UnderwaySentence(r.status);
      MentionedInSentences(first, loc, PlannedLocation, other, PlannedOther, p);
      OccursRight(p, o, first + PurposeSentence(loc, PlannedLocation) + PurposeSentence(other, PlannedOther));
    }
  }

  // ---------------------------------------------------------------------
  // The narrative for a chosen city

  /** The outcome of the narrative step for one city choice. */
  datatype Narrative =
    | NoRows                             // the city has no rows: `idxmax` fails
    | NoRecord                           // the tallest row's identifier is not in the table
    | NoCity                             // the choice strips to "": no paragraph is shown
    | Told(tallest: Record, text: string)

  /** For a city choice: find the first tallest row of the name-sorted
      detail table, look its record up by identifier and write the paragraph.
      `formatHeight` renders a height with two decimals. */
  function NarrativeFor(table: Table, choice: string, formatHeight: real -> string): Narrative
  {
    var city := StripLabel(choice);
    var rows := CityTable(table, city);
    if rows == [] then NoRows
    else match FindById(table, rows[TallestIndex(rows)].id)
      case None => NoRecord
      case Some(r) =>
        if city == "" then NoCity
        else Told(r, Paragraph(city, r, formatHeight(r.height),
          PurposesOf(LocationPurposes, r.purposes), PurposesOf(OtherPurposes, r.purposes)))
  }

  /** With unique identifiers `idxmax` fails (`NoRows`) exactly when the
      city has no records, and the lookup never fails; no paragraph is told
      also when the choice strips to "". A told paragraph describes a
      tallest record of the city: the first of the tallest in name order. */
  lemma NarrativeTallest(table: Table, choice: string, formatHeight: real -> string)
    requires UniqueIds(table)
    ensures var city := StripLabel(choice);
      NarrativeFor(table, choice, formatHeight).NoRows? <==> forall x :: x in table ==> x.city != city
    ensures !NarrativeFor(table, choice, formatHeight).NoRecord?
    ensures var city := StripLabel(choice);
      NarrativeFor(table, choice, formatHeight).NoCity? <==> city == "" && exists x :: x in table && x.city == city
    ensures var city := StripLabel(choice);
      NarrativeFor(table, choice, formatHeight).Told? <==> city != "" && exists x :: x in table && x.city == city
    ensures var city := StripLabel(choice);
      var n := NarrativeFor(table, choice, formatHeight);
      n.Told? ==>
        && n.tallest in table && n.tallest.city == city
        && (forall x :: x in table && x.city == city ==> x.height <= n.tallest.height)
        && n.text == Paragraph(city, n.tallest, formatHeight(n.tallest.height),
             PurposesOf(LocationPurposes, n.tallest.purposes), PurposesOf(OtherPurposes, n.tallest.purposes))
        && ToRow(n.tallest) == CityTable(table, city)[TallestIndex(CityTable(table, city))]
  {
    var city := StripLabel(choice);
    var rows := CityTable(table, city);
    var n := NarrativeFor(table, choice, formatHeight);
    CityTableSpec(table, city);
    if x :| x in table && x.city == city {
      assert ToRow(x) in rows;
    }
    if rows == [] {
      assert n == NoRows;
    } else {
      var p := TallestIndex(rows);
      assert rows[p] in rows;
      var r :| r in table && r.city == city && rows[p] == ToRow(r);
      FindByIdOwn(table, r);
      assert FindById(table, rows[p].id) == Some(r);
      if city == "" {
        assert n == NoCity;
      } else {
        assert n == Told(r, Paragraph(city, r, formatHeight(r.height),
          PurposesOf(LocationPurposes, r.purposes), PurposesOf(OtherPurposes, r.purposes)));
      }
      forall x | x in table && x.city == city
        ensures x.height <= r.height
      {
        assert ToRow(x) in rows;
        var j :| 0 <= j < |rows| && rows[j] == ToRow(x);
      }
    }
  }
}
