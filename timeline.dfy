/** The "Constructions started over time" chart: records with a known
    start year at or after the chosen start year, grouped into buckets of
    `width` years anchored at year 0, with the number of records per bucket. */
module Timeline {
  import opened Seqs
  import opened Records

  /** `(year // width) * width`: the first year of the bucket holding `year`. */
  function Bucket(year: int, width: int): (b: int)
    requires width > 0
    ensures b % width == 0
    ensures b <= year < b + width
  {
    var q := year / width;
    assert q * width <= year < q * width + width;
    assert (q * width) % width == 0 by {
      ModOfMultiple(q, width);
    }
    q * width
  }

  /** A positive multiple of a positive width is at least the width. */
  lemma {:induction false} MulAtLeast(a: int, width: int)
    requires a >= 1 && width > 0
    ensures a * width >= width
    decreases a
  {
    if a > 1 {
      MulAtLeast(a - 1, width);
      assert a * width == (a - 1) * width + width;
    }
  }

  lemma ModOfMultiple(q: int, width: int)
    requires width > 0
    ensures (q * width) % width == 0
  {
    var m := q * width;
    var d := m / width;
    var r := m % width;
    assert m == d * width + r;
    assert (q - d) * width == r;
    if q - d >= 1 {
      MulAtLeast(q - d, width);
    } else if d - q >= 1 {
      MulAtLeast(d - q, width);
    }
  }

  /** The bucket is the only multiple of `width` within `width` years below `year`. */
  lemma BucketUnique(year: int, width: int, b: int)
    requires width > 0
    requires b % width == 0 && b <= year < b + width
    ensures b == Bucket(year, width)
  {
    var c := Bucket(year, width);
    var i := b / width;
    var j := c / width;
    assert b == i * width;
    assert c == j * width;
    if i < j {
      MulAtLeast(j - i, width);
    } else if j < i {
      MulAtLeast(i - j, width);
    }
  }

  /** `status.started.year > 0`: the start year is known. */
  predicate HasStarted(r: Record)
  {
    r.startedYear > 0
  }

  function Started(): Record -> bool
  {
    (r: Record) => HasStarted(r)
  }

  function AtOrAfter(cutoff: int): Record -> bool
  {
    (r: Record) => r.startedYear >= cutoff
  }

  /** `df_years_filtered`: the started records, then those from the start year on. */
  function Counted(table: Table, cutoff: int): seq<Record>
  {
    Filter(Filter(table, Started()), AtOrAfter(cutoff))
  }

  /** The records `Counted` keeps are exactly those started in or after the cutoff. */
  lemma CountedMembers(table: Table, cutoff: int, r: Record)
    ensures r in Counted(table, cutoff) <==> r in table && r.startedYear > 0 && r.startedYear >= cutoff
  {
  }

  function BucketOf(width: int): Record -> int
    requires width > 0
  {
    (r: Record) => Bucket(r.startedYear, width)
  }

  // ---------------------------------------------------------------------
  // groupby("bucket").size()

  /** One point of the chart: a bucket and its number of records. */
  datatype Bin = Bin(bucket: int, count: nat)

  ghost predicate Ascending(h: seq<Bin>)
  {
    forall i, j :: 0 <= i < j < |h| ==> h[i].bucket < h[j].bucket
  }

  ghost predicate Positive(h: seq<Bin>)
  {
    forall i :: 0 <= i < |h| ==> h[i].count > 0
  }

  /** The count a grouped series holds for a bucket, 0 when it has no entry. */
  function CountOf(h: seq<Bin>, b: int): nat
  {
    if h == [] then 0
    else if h[0].bucket == b then h[0].count
    else CountOf(h[1..], b)
  }

  /** The sum of the counts. */
  function TotalCount(h: seq<Bin>): nat
  {
    if h == [] then 0 else h[0].count + TotalCount(h[1..])
  }

  /** Adds one occurrence of bucket `b` to an ascending series. */
  function AddTo(h: seq<Bin>, b: int): (r: seq<Bin>)
    requires Ascending(h) && Positive(h)
    ensures Ascending(r) && Positive(r)
    ensures r != [] && (r[0].bucket == b || (h != [] && r[0].bucket == h[0].bucket))
    ensures forall k :: CountOf(r, k) == CountOf(h, k) + (if k == b then 1 else 0)
    ensures TotalCount(r) == TotalCount(h) + 1
  {
    if h == [] then [Bin(b, 1)]
    else if b < h[0].bucket then
      assert forall k :: k < h[0].bucket ==> CountOf(h, k) == 0 by {
        AscendingBelow(h);
      }
      [Bin(b, 1)] + h
    else if b == h[0].bucket then [Bin(b, h[0].count + 1)] + h[1..]
    else
      var rest := AddTo(h[1..], b);
      var r := [h[0]] + rest;
      assert r[1..] == rest;
      r
  }

  /** In an ascending series a bucket below the first has no entry. */
  lemma {:induction false} AscendingBelow(h: seq<Bin>)
    requires Ascending(h) && h != []
    ensures forall k :: k < h[0].bucket ==> CountOf(h, k) == 0
  {
    if |h| > 1 {
      AscendingBelow(h[1..]);
    }
  }

  /** The grouped series of a sequence of buckets: ascending buckets, each
      with the number of times it occurs. */
  function Group(bs: seq<int>): (h: seq<Bin>)
    ensures Ascending(h) && Positive(h)
    ensures forall k :: CountOf(h, k) == multiset(bs)[k]
    ensures TotalCount(h) == |bs|
  {
    if bs == [] then []
    else
      var init := bs[..|bs| - 1];
      assert bs == init + [bs[|bs| - 1]];
      AddTo(Group(init), bs[|bs| - 1])
  }

  /** The points of the chart for bucket width `width` and start year `cutoff`. */
  function Histogram(table: Table, width: int, cutoff: int): seq<Bin>
    requires width > 0
  {
    Group(MapSeq(Counted(table, cutoff), BucketOf(width)))
  }

  /** In an ascending series each entry is what `CountOf` reports for its bucket. */
  lemma {:induction false} CountOfEntry(h: seq<Bin>, i: int)
    requires Ascending(h)
    requires 0 <= i < |h|
    ensures CountOf(h, h[i].bucket) == h[i].count
  {
    if i > 0 {
      CountOfEntry(h[1..], i - 1);
    }
  }

  /** A bucket with a nonzero count has an entry. */
  lemma {:induction false} CountOfHasEntry(h: seq<Bin>, k: int)
    requires CountOf(h, k) > 0
    ensures exists i :: 0 <= i < |h| && h[i].bucket == k
  {
    if h[0].bucket != k {
      CountOfHasEntry(h[1..], k);
      var i :| 0 <= i < |h[1..]| && h[1..][i].bucket == k;
      assert h[i + 1].bucket == k;
    }
  }

  function InBucket(width: int, b: int): Record -> bool
    requires width > 0
  {
    (r: Record) => Bucket(r.startedYear, width) == b
  }

  /** The multiplicity of a bucket is the number of records that fall in it. */
  lemma {:induction false} BucketMultiplicity(rs: seq<Record>, width: int, b: int)
    requires width > 0
    ensures multiset(MapSeq(rs, BucketOf(width)))[b] == Count(rs, InBucket(width, b))
  {
    if rs != [] {
      var init := rs[..|rs| - 1];
      var last := rs[|rs| - 1];
      assert rs == init + [last];
      BucketMultiplicity(init, width, b);
      CountSnoc(init, last, InBucket(width, b));
      assert MapSeq(rs, BucketOf(width)) == MapSeq(init, BucketOf(width)) + [Bucket(last.startedYear, width)];
    }
  }

  /** The chart's buckets are in ascending order, each with a positive
      count, and the counts add up to the number of counted records. */
  lemma HistogramShape(table: Table, width: int, cutoff: int)
    requires width > 0
    ensures Ascending(Histogram(table, width, cutoff)) && Positive(Histogram(table, width, cutoff))
    ensures TotalCount(Histogram(table, width, cutoff)) == |Counted(table, cutoff)|
  {
  }

  /** Every bucket's count is the number of counted records that fall in it. */
  lemma HistogramCounts(table: Table, width: int, cutoff: int, b: int)
    requires width > 0
    ensures CountOf(Histogram(table, width, cutoff), b) == Count(Counted(table, cutoff), InBucket(width, b))
  {
    BucketMultiplicity(Counted(table, cutoff), width, b);
  }

  /** Every plotted bucket is a multiple of the width holding the start year
      of some counted record. */
  lemma HistogramBuckets(table: Table, width: int, cutoff: int, i: int)
    requires width > 0
    requires 0 <= i < |Histogram(table, width, cutoff)|
    ensures Histogram(table, width, cutoff)[i].bucket % width == 0
    ensures exists r ::
      && r in Counted(table, cutoff)
      && Histogram(table, width, cutoff)[i].bucket <= r.startedYear < Histogram(table, width, cutoff)[i].bucket + width
  {
    var rs := Counted(table, cutoff);
    var bs := MapSeq(rs, BucketOf(width));
    var h := Group(bs);
    var b := h[i].bucket;
    CountOfEntry(h, i);
    assert b in multiset(bs);
    var j :| 0 <= j < |bs| && bs[j] == b;
    assert rs[j] in rs && b == Bucket(rs[j].startedYear, width);
  }

  /** Every counted record's bucket is plotted. */
  lemma HistogramCoversRecords(table: Table, width: int, cutoff: int, r: Record)
    requires width > 0
    requires r in Counted(table, cutoff)
    ensures exists i ::
      && 0 <= i < |Histogram(table, width, cutoff)|
      && Histogram(table, width, cutoff)[i].bucket == Bucket(r.startedYear, width)
  {
    var rs := Counted(table, cutoff);
    var bs := MapSeq(rs, BucketOf(width));
    var h := Group(bs);
    assert h == Histogram(table, width, cutoff);
    var j :| 0 <= j < |rs| && rs[j] == r;
    var b := bs[j];
    assert b == Bucket(r.startedYear, width);
    assert b in multiset(bs);
    assert CountOf(h, b) > 0;
    CountOfHasEntry(h, b);
  }

  // ---------------------------------------------------------------------
  // The start-year slider

  /** `df_years["status.started.year"].min()`: the earliest known start year,
      `None` when no record has one. */
  function MinStartedYear(table: Table): (m: Option<int>)
    ensures m.None? <==> forall r :: r in table ==> r.startedYear <= 0
    ensures m.Some? ==>
      && m.value > 0
      && (exists r :: r in table && r.startedYear == m.value)
      && forall r :: r in table && r.startedYear > 0 ==> m.value <= r.startedYear
  {
    if table == [] then None
    else
      var rest := MinStartedYear(table[1..]);
      assert forall r :: r in table <==> r == table[0] || r in table[1..];
      var y := table[0].startedYear;
      if y <= 0 then rest
      else match rest
        case None => Some(y)
        case Some(m) => if y < m then Some(y) else Some(m)
  }

  /** A start year no later than the earliest one cuts nothing: every started
      record is counted. The slider's default is that earliest year. */
  lemma CutoffAtMinimumKeepsAll(table: Table, cutoff: int)
    requires MinStartedYear(table).Some? && cutoff <= MinStartedYear(table).value
    ensures Counted(table, cutoff) == Filter(table, Started())
  {
    var s := Filter(table, Started());
    assert forall r :: r in s ==> AtOrAfter(cutoff)(r);
    FilterAll(s, AtOrAfter(cutoff));
  }

  /** A record started in 1955 falls in the 1950 bucket of a 10-year chart
      and in the 1955 bucket of a 1-year chart. */
  lemma BucketExamples()
    ensures Bucket(1955, 10) == 1950
    ensures Bucket(1955, 1) == 1955
    ensures Bucket(1950, 10) == 1950
  {
  }

  /** A single bucket groups into one entry of count 1. */
  lemma GroupSingle(b: int)
    ensures Group([b]) == [Bin(b, 1)]
  {
    assert [b][..0] == [];
  }

  /** From 1950 on, a record started in 1955 is counted and one started
      in 1949 is not. */
  lemma CountedExample(a: Record, b: Record)
    requires a.startedYear == 1955 && b.startedYear == 1949
    ensures Counted([a, b], 1950) == [a]
  {
    var table := [a, b];
    FilterAll(table, Started());
    assert table == [a] + [b];
    FilterSnoc([a], b, AtOrAfter(1950));
    FilterSingleton(a, AtOrAfter(1950));
  }

  /** With 10-year buckets from 1950 on, a record started in 1955 is
      counted in the 1950 bucket and one started in 1949 is not counted,
      though its bucket would be 1940. */
  lemma CutoffExample(a: Record, b: Record)
    requires a.startedYear == 1955 && b.startedYear == 1949
    ensures Histogram([a, b], 10, 1950) == [Bin(1950, 1)]
  {
    CountedExample(a, b);
    assert MapSeq([a], BucketOf(10)) == [1950] by {
      assert Bucket(1955, 10) == 1950;
    }
    GroupSingle(1950);
  }
}
