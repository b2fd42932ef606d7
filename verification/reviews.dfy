/**
 The review pipeline of the animated comparison chart (js/animation.js): CSV rows
 are validated and normalised into reviews, reviews are grouped by a
 "<year>-Q<quarter>" key, and every key is decoded back to the first day of its
 quarter together with the positive and negative counts of its group.
 */
module Reviews {
  import opened Wrappers
  import opened Seqs
  import opened Text
  import opened Rollups

  /**
   A CSV row as the loader hands it to the row function: column name to cell
   text. A column that is not in the file's header is absent from the map
   (`undefined`); a short row has "" in its missing cells.
   */
  type RawRow = map<string, string>

  type Month0 = m: nat | m < 12

  /** A calendar date read from an ISO date token: full year, zero-based month, day of month. */
  datatype CalDate = CalDate(year: nat, month0: Month0, day: nat)

  /** A validated review: its date (`None` stands for an Invalid Date) and whether it recommends the game. */
  datatype Review = Review(date: Option<CalDate>, votedUp: bool)

  /** A date built by `new Date(year, month, day)`: normalised fields, or Invalid Date. */
  datatype DateValue = InvalidDate | DateOf(year: int, month0: int, day: int)

  /** One bar pair of the chart: the first day of a quarter and the review counts in it. */
  datatype QuarterAggregate = QuarterAggregate(start: DateValue, positive: nat, negative: nat)

  const TimestampColumn := "timestamp"
  const RatingColumn := "rating"
  const PositiveLabel := "positive"
  /** The key of a review whose date is invalid: year and quarter both print as NaN. */
  const InvalidKey := "NaN-QNaN"

  // ---------------------------------------------------------------------------
  // Row validation and normalisation
  // ---------------------------------------------------------------------------

  /** The cell is defined and non-empty, i.e. truthy. */
  predicate Present(row: RawRow, column: string)
  {
    column in row && row[column] != ""
  }

  /** The row function accepts the row. */
  predicate Accepted(row: RawRow)
  {
    Present(row, TimestampColumn) && Present(row, RatingColumn)
  }

  function Cell(row: RawRow, column: string): string
  {
    if column in row then row[column] else ""
  }

  predicate IsDigitsAt(t: string, lo: nat, hi: nat)
  {
    lo <= hi <= |t| && AllDigits(t[lo..hi])
  }

  function FieldAt(t: string, lo: nat, hi: nat): nat
    requires IsDigitsAt(t, lo, hi)
  {
    ParseDigits(t[lo..hi])
  }

  /**
   The date-only forms of the ECMAScript date-time string format: "YYYY",
   "YYYY-MM" and "YYYY-MM-DD". Anything else is an Invalid Date (`None`).
   */
  function ParseIsoDate(t: string): (d: Option<CalDate>)
    ensures d.Some? ==> d.value.year < 10000 && 1 <= d.value.day <= 31
  {
    if (|t| != 4 && |t| != 7 && |t| != 10) || !IsDigitsAt(t, 0, 4) then None
    else
      var year := FieldAt(t, 0, 4);
      PadParse(t[0..4]);
      if |t| == 4 then Some(CalDate(year, 0, 1))
      else if t[4] != '-' || !IsDigitsAt(t, 5, 7) || !(1 <= FieldAt(t, 5, 7) <= 12) then None
      else
        var month := FieldAt(t, 5, 7);
        if |t| == 7 then Some(CalDate(year, month - 1, 1))
        else if t[7] != '-' || !IsDigitsAt(t, 8, 10) || !(1 <= FieldAt(t, 8, 10) <= 31) then None
        else Some(CalDate(year, month - 1, FieldAt(t, 8, 10)))
  }

  /** The canonical "YYYY-MM-DD" text of a date with a four-digit year. */
  function FormatIsoDate(d: CalDate): string
  {
    Pad(d.year, 4) + "-" + Pad(d.month0 + 1, 2) + "-" + Pad(d.day, 2)
  }

  /** Normalisation of an accepted row: the date from the first token of the timestamp, the vote from the rating label. */
  function Normalize(row: RawRow): Review
  {
    Review(ParseIsoDate(FirstToken(Cell(row, TimestampColumn), ' ')),
           Cell(row, RatingColumn) == PositiveLabel)
  }

  /** The row function passed to the CSV loader: `None` stands for the `null` it returns. */
  function IngestRow(row: RawRow): (r: Option<Review>)
    ensures r.None? <==> !Present(row, TimestampColumn) || !Present(row, RatingColumn)
    ensures r.Some? ==> (r.value.votedUp <==> row[RatingColumn] == PositiveLabel)
  {
    if !Present(row, TimestampColumn) || !Present(row, RatingColumn) then None
    else Some(Normalize(row))
  }

  /** The accepted rows, normalised, in file order. */
  function AcceptedReviews(rows: seq<RawRow>): seq<Review>
  {
    Project(Filter(rows, Accepted), Normalize)
  }

  /**
   Loading: the row function runs on every row, the nulls are filtered out, and
   the conversion counter goes up once per accepted row (its `typeof` test
   always succeeds, since the comparison always yields a boolean).
   */
  method Ingest(rows: seq<RawRow>) returns (records: seq<Review>, converted: nat)
    ensures records == Project(Filter(rows, Accepted), Normalize)
    ensures converted == |records| == |Filter(rows, Accepted)|
  {
    records, converted := [], 0;
    var i := 0;
    while i < |rows|
      invariant 0 <= i <= |rows|
      invariant records == Project(Filter(rows[..i], Accepted), Normalize)
      invariant converted == |records|
    {
      IngestStep(rows, i);
      var r := IngestRow(rows[i]);
      if r.Some? {
        converted := converted + 1;
        records := records + [r.value];
      }
      i := i + 1;
    }
    assert rows[..i] == rows;
  }

  /** One more row adds its normalised review exactly when the row is accepted. */
  lemma {:induction false} IngestStep(rows: seq<RawRow>, i: nat)
    requires i < |rows|
    ensures Project(Filter(rows[..i + 1], Accepted), Normalize) ==
            Project(Filter(rows[..i], Accepted), Normalize) + (if Accepted(rows[i]) then [Normalize(rows[i])] else [])
  {
    assert rows[..i + 1] == rows[..i] + [rows[i]];
    FilterSnoc(rows[..i], rows[i], Accepted);
    ProjectSnoc(Filter(rows[..i], Accepted), rows[i], Normalize);
  }

  /** Time-of-day text after the first space never influences the record. */
  lemma {:induction false} TimeOfDayIgnored(row: RawRow, date: string, rest: string)
    requires date != "" && ' ' !in date
    requires TimestampColumn in row && row[TimestampColumn] == date + " " + rest
    ensures IngestRow(row) == IngestRow(row[TimestampColumn := date])
  {
    FirstTokenIgnoresRest(date, rest, ' ');
    var tok := FirstToken(date, ' ');
    assert tok == date by {
      assert forall i :: 0 <= i < |tok| ==> date[i] == tok[i];
    }
  }

  /** Parsing the canonical text of a date gives the date back. */
  lemma {:induction false} IsoDateRoundTrip(d: CalDate)
    requires d.year < 10000 && 1 <= d.day <= 31
    ensures ParseIsoDate(FormatIsoDate(d)) == Some(d)
  {
    var t := FormatIsoDate(d);
    FormatFields(d);
    assert FieldAt(t, 0, 4) == d.year by {
      assert Pow10(4) == 10000;
      ParsePad(d.year, 4);
    }
    assert FieldAt(t, 5, 7) == d.month0 + 1 by {
      assert Pow10(2) == 100;
      ParsePad(d.month0 + 1, 2);
    }
    assert FieldAt(t, 8, 10) == d.day by {
      assert Pow10(2) == 100;
      ParsePad(d.day, 2);
    }
    FullDate(t);
  }

  /** Where the fields of the canonical text sit. */
  lemma {:induction false} FormatFields(d: CalDate)
    ensures |FormatIsoDate(d)| == 10
    ensures FormatIsoDate(d)[0..4] == Pad(d.year, 4) && FormatIsoDate(d)[4] == '-'
    ensures FormatIsoDate(d)[5..7] == Pad(d.month0 + 1, 2) && FormatIsoDate(d)[7] == '-'
    ensures FormatIsoDate(d)[8..10] == Pad(d.day, 2)
  {
  }

  /** A ten-character token with two dashes and valid fields parses to its fields. */
  lemma {:induction false} FullDate(t: string)
    requires |t| == 10 && t[4] == '-' && t[7] == '-'
    requires IsDigitsAt(t, 0, 4) && IsDigitsAt(t, 5, 7) && IsDigitsAt(t, 8, 10)
    requires 1 <= FieldAt(t, 5, 7) <= 12 && 1 <= FieldAt(t, 8, 10) <= 31
    ensures ParseIsoDate(t) == Some(CalDate(FieldAt(t, 0, 4), FieldAt(t, 5, 7) - 1, FieldAt(t, 8, 10)))
  {
  }

  /** A ten-character token parses only with two dashes and valid fields, and then to its fields. */
  lemma {:induction false} FullDateParsed(t: string)
    requires |t| == 10 && ParseIsoDate(t).Some?
    ensures t[4] == '-' && t[7] == '-'
    ensures IsDigitsAt(t, 0, 4) && IsDigitsAt(t, 5, 7) && IsDigitsAt(t, 8, 10)
    ensures ParseIsoDate(t) == Some(CalDate(FieldAt(t, 0, 4), FieldAt(t, 5, 7) - 1, FieldAt(t, 8, 10)))
  {
  }

  /** A full "YYYY-MM-DD" token that parses is the canonical text of its date. */
  lemma {:induction false} IsoDateCanonical(t: string)
    requires |t| == 10 && ParseIsoDate(t).Some?
    ensures FormatIsoDate(ParseIsoDate(t).value) == t
  {
    FullDateParsed(t);
    var d := ParseIsoDate(t).value;
    FormatFields(d);
    assert Pad(d.year, 4) == t[0..4] by {
      PadParse(t[0..4]);
    }
    assert Pad(d.month0 + 1, 2) == t[5..7] by {
      PadParse(t[5..7]);
    }
    assert Pad(d.day, 2) == t[8..10] by {
      PadParse(t[8..10]);
    }
    var f := FormatIsoDate(d);
    assert forall i :: 0 <= i < 10 ==> f[i] == t[i] by {
      assert f[0..4] == t[0..4] && f[5..7] == t[5..7] && f[8..10] == t[8..10];
    }
  }

  // ---------------------------------------------------------------------------
  // Quarter keys
  // ---------------------------------------------------------------------------

  /** `Math.floor(month / 3) + 1`: the quarter a month falls in. */
  function Quarter(d: CalDate): (q: nat)
    ensures 1 <= q <= 4
    ensures (q - 1) * 3 <= d.month0 < q * 3
  {
    d.month0 / 3 + 1
  }

  /** The grouping key `${year}-Q${quarter}`; an Invalid Date prints as "NaN-QNaN". */
  function QuarterKey(date: Option<CalDate>): string
  {
    match date
    case None => InvalidKey
    case Some(d) => ShowNat(d.year) + "-Q" + ShowNat(Quarter(d))
  }

  function ReviewKey(r: Review): string
  {
    QuarterKey(r.date)
  }

  /** The first day of the quarter a date lies in: same year, month a multiple of 3 at most 2 months earlier. */
  function QuarterStart(date: Option<CalDate>): (s: DateValue)
    ensures date.None? <==> s.InvalidDate?
    ensures date.Some? ==>
              && s.year == date.value.year && s.day == 1 && s.month0 % 3 == 0
              && s.month0 <= date.value.month0 < s.month0 + 3
  {
    match date
    case None => InvalidDate
    case Some(d) => DateOf(d.year, (Quarter(d) - 1) * 3, 1)
  }

  function ReviewStart(r: Review): DateValue
  {
    QuarterStart(r.date)
  }

  predicate MarkerAt(s: string, j: int)
  {
    0 <= j && j + 1 < |s| && s[j] == '-' && s[j + 1] == 'Q'
  }

  /** Position of the first "-Q" in `s`, if any. */
  function MarkerIndex(s: string): (r: Option<nat>)
    ensures r.Some? ==> MarkerAt(s, r.value)
    ensures r.Some? ==> forall j :: 0 <= j < r.value ==> !MarkerAt(s, j)
    ensures r.None? ==> forall j :: 0 <= j < |s| ==> !MarkerAt(s, j)
  {
    if |s| < 2 then None
    else if s[0] == '-' && s[1] == 'Q' then Some(0)
    else
      assert forall j :: 1 <= j < |s| ==> (MarkerAt(s, j) <==> MarkerAt(s[1..], j - 1));
      match MarkerIndex(s[1..])
      case None => None
      case Some(i) => Some(i + 1)
  }

  /** `key.split("-Q")` read as `[year, quarter]`: both numbers, or NaN (`None`). */
  function DecodeParts(key: string): Option<(nat, nat)>
  {
    match MarkerIndex(key)
    case None => None
    case Some(i) =>
      var year := StringToNumber(key[..i]);
      // parseInt reads only the leading digits, so text from a second "-Q" on is ignored
      var quarter := ParseIntPrefix(key[i + 2..]);
      if year.None? || quarter.None? then None else Some((year.value, quarter.value))
  }

  /** `new Date(year, month, 1)` with the month carried into the year when it leaves 0..11. */
  function MakeDate(year: int, month: int): (d: DateValue)
    ensures d.DateOf? && 0 <= d.month0 < 12 && d.year * 12 + d.month0 == year * 12 + month
  {
    DateOf(year + month / 12, month % 12, 1)
  }

  /** Key decoding: the year of the key and the quarter's first month `(quarter - 1) * 3`, day 1. */
  function DecodeKey(key: string): DateValue
  {
    match DecodeParts(key)
    case None => InvalidDate
    case Some((year, quarter)) => MakeDate(year, (quarter - 1) * 3)
  }

  lemma {:induction false} MarkerIndexOf(a: string, b: string)
    requires '-' !in a
    ensures MarkerIndex(a + "-Q" + b) == Some(|a|)
  {
    var s := a + "-Q" + b;
    assert MarkerAt(s, |a|);
    assert forall j :: 0 <= j < |a| ==> s[j] == a[j] && a[j] != '-';
  }

  lemma {:induction false} KeySlices(a: string, b: string)
    ensures var s := a + "-Q" + b; s[..|a|] == a && s[|a| + 2..] == b
  {
    var s := a + "-Q" + b;
    assert s[..|a|] == a;
    assert s[|a| + 2..] == b;
  }

  /** The key of an Invalid Date carries no numbers. */
  lemma {:induction false} InvalidKeyParts()
    ensures DecodeParts(InvalidKey) == None
  {
    assert InvalidKey == "NaN" + "-Q" + "NaN";
    MarkerIndexOf("NaN", "NaN");
    KeySlices("NaN", "NaN");
    assert StringToNumber("NaN") == None by {
      assert !IsDigit("NaN"[0]);
    }
  }

  /** The key of a valid date carries its year and quarter. */
  lemma {:induction false} ValidKeyParts(d: CalDate)
    ensures DecodeParts(QuarterKey(Some(d))) == Some((d.year, Quarter(d)))
  {
    var a, b := ShowNat(d.year), ShowNat(Quarter(d));
    assert '-' !in a by { assert forall j :: 0 <= j < |a| ==> IsDigit(a[j]); }
    MarkerIndexOf(a, b);
    KeySlices(a, b);
    ParseShowNat(d.year);
    ParseShowNat(Quarter(d));
    ParseIntOfDigitsThen(b, "");
    assert b + "" == b;
  }

  /** Decoding undoes encoding: the key of a date decodes to the start of the date's quarter. */
  lemma {:induction false} KeyRoundTrip(date: Option<CalDate>)
    ensures DecodeKey(QuarterKey(date)) == QuarterStart(date)
  {
    match date
    case None => InvalidKeyParts();
    case Some(d) => ValidKeyParts(d);
  }

  /** Two dates share a key exactly when they share a quarter start. */
  lemma {:induction false} KeyInjective(d1: Option<CalDate>, d2: Option<CalDate>)
    ensures QuarterKey(d1) == QuarterKey(d2) <==> QuarterStart(d1) == QuarterStart(d2)
  {
    if QuarterKey(d1) == QuarterKey(d2) {
      KeyRoundTrip(d1);
      KeyRoundTrip(d2);
    }
    if QuarterStart(d1) == QuarterStart(d2) {
      StartDeterminesKey(d1, d2);
    }
  }

  /** Dates with the same quarter start have the same year and quarter, hence the same key. */
  lemma {:induction false} StartDeterminesKey(d1: Option<CalDate>, d2: Option<CalDate>)
    requires QuarterStart(d1) == QuarterStart(d2)
    ensures QuarterKey(d1) == QuarterKey(d2)
  {
    if d1.Some? && d2.Some? {
      var a, b := d1.value, d2.value;
      assert a.year == b.year;
      assert Quarter(a) == Quarter(b) by {
        assert (Quarter(a) - 1) * 3 == (Quarter(b) - 1) * 3;
      }
    }
  }

  // ---------------------------------------------------------------------------
  // Quarterly aggregation
  // ---------------------------------------------------------------------------

  function IsPositive(r: Review): bool
  {
    r.votedUp
  }

  function IsNegative(r: Review): bool
  {
    !r.votedUp
  }

  function PositiveCount(s: seq<Review>): nat
  {
    |Filter(s, IsPositive)|
  }

  function NegativeCount(s: seq<Review>): nat
  {
    |Filter(s, IsNegative)|
  }

  /** The reduce step and the key decoding for one group. */
  function Summarize(g: Group<string, Review>): QuarterAggregate
  {
    QuarterAggregate(DecodeKey(g.key), |Filter(g.items, IsPositive)|, |Filter(g.items, IsNegative)|)
  }

  function Summaries(gs: seq<Group<string, Review>>): (out: seq<QuarterAggregate>)
    ensures |out| == |gs|
    ensures forall i :: 0 <= i < |gs| ==> out[i] == Summarize(gs[i])
  {
    if |gs| == 0 then [] else Summaries(DropLast(gs)) + [Summarize(Last(gs))]
  }

  /**
   `formattedData`: the grouped reviews, one aggregate per quarter key, in
   first-seen order. Each key is decoded with the corrected `DecodeKey`, not
   with `DecodeKeyAsWritten`; the two differ only for years 0..99, so the
   lemmas about the aggregates describe the corrected decoding.
   */
  function AggregateQuarters(records: seq<Review>): seq<QuarterAggregate>
  {
    Summaries(Rollup(records, ReviewKey))
  }

  function StartOf(a: QuarterAggregate): DateValue
  {
    a.start
  }

  function TotalPositive(out: seq<QuarterAggregate>): nat
  {
    if |out| == 0 then 0 else TotalPositive(DropLast(out)) + Last(out).positive
  }

  function TotalNegative(out: seq<QuarterAggregate>): nat
  {
    if |out| == 0 then 0 else TotalNegative(DropLast(out)) + Last(out).negative
  }

  lemma {:induction false} SummariesTotals(gs: seq<Group<string, Review>>)
    ensures TotalPositive(Summaries(gs)) == SumOver(gs, PositiveCount)
    ensures TotalNegative(Summaries(gs)) == SumOver(gs, NegativeCount)
  {
    if |gs| > 0 {
      SummariesTotals(DropLast(gs));
      assert DropLast(Summaries(gs)) == Summaries(DropLast(gs));
    }
  }

  lemma {:induction false} CountsAdditive()
    ensures Additive(PositiveCount) && Additive(NegativeCount)
  {
    forall s: seq<Review>, x: Review
      ensures PositiveCount(s + [x]) == PositiveCount(s) + PositiveCount([x])
      ensures NegativeCount(s + [x]) == NegativeCount(s) + NegativeCount([x])
    {
      FilterSnoc(s, x, IsPositive);
      FilterSnoc(s, x, IsNegative);
      FilterSnoc([], x, IsPositive);
      FilterSnoc([], x, IsNegative);
      assert [] + [x] == [x];
    }
  }

  /**
   Every review is counted exactly once: the positive counts add up to the
   positive reviews, the negative counts to the negative ones, and together to
   all reviews.
   */
  lemma {:induction false} AggregateConserves(records: seq<Review>)
    ensures TotalPositive(AggregateQuarters(records)) == |Filter(records, IsPositive)|
    ensures TotalNegative(AggregateQuarters(records)) == |Filter(records, IsNegative)|
    ensures TotalPositive(AggregateQuarters(records)) + TotalNegative(AggregateQuarters(records)) == |records|
  {
    var gs := Rollup(records, ReviewKey);
    SummariesTotals(gs);
    CountsAdditive();
    RollupConserves(records, ReviewKey, PositiveCount);
    RollupConserves(records, ReviewKey, NegativeCount);
    FilterComplement(records, IsPositive, IsNegative);
  }

  /** Selecting by key and selecting by quarter start pick the same reviews. */
  lemma {:induction false} SelectByStart(xs: seq<Review>, d: Option<CalDate>)
    ensures Select(xs, ReviewKey, QuarterKey(d)) == Select(xs, ReviewStart, QuarterStart(d))
  {
    if |xs| > 0 {
      SelectByStart(DropLast(xs), d);
      KeyInjective(Last(xs).date, d);
    }
  }

  /**
   Decoding the first-seen keys gives the first-seen quarter starts: keys and
   starts determine each other, so de-duplicating either gives the same order.
   */
  lemma {:induction false} FirstSeenDecode(records: seq<Review>)
    ensures Project(FirstSeen(Project(records, ReviewKey)), DecodeKey)
         == FirstSeen(Project(records, ReviewStart))
  {
    var ks := Project(records, ReviewKey);
    forall i, j | 0 <= i < |ks| && 0 <= j < |ks| && DecodeKey(ks[i]) == DecodeKey(ks[j])
      ensures ks[i] == ks[j]
    {
      KeyRoundTrip(records[i].date);
      KeyRoundTrip(records[j].date);
      KeyInjective(records[i].date, records[j].date);
    }
    FirstSeenProject(ks, DecodeKey);
    forall i | 0 <= i < |records|
      ensures DecodeKey(ks[i]) == ReviewStart(records[i])
    {
      KeyRoundTrip(records[i].date);
    }
    assert Project(ks, DecodeKey) == Project(records, ReviewStart);
  }

  /**
   One aggregate per quarter present in the reviews, in the order the quarters
   are first met (no chronological sort).
   */
  lemma {:induction false} AggregateStarts(records: seq<Review>)
    ensures Project(AggregateQuarters(records), StartOf) == FirstSeen(Project(records, ReviewStart))
  {
    var gs := Rollup(records, ReviewKey);
    var out := AggregateQuarters(records);
    RollupGroups(records, ReviewKey);
    FirstSeenDecode(records);
    assert Project(out, StartOf) == Project(Keys(gs), DecodeKey);
  }

  /**
   Each aggregate carries the number of positive and of negative reviews of
   exactly its quarter, and no quarter is empty: a quarter with only positive or
   only negative reviews still appears, with the other count 0.
   */
  lemma {:induction false} AggregateCounts(records: seq<Review>)
    ensures forall i :: 0 <= i < |AggregateQuarters(records)| ==>
              var a := AggregateQuarters(records)[i];
              var group := Select(records, ReviewStart, a.start);
              && a.positive == |Filter(group, IsPositive)|
              && a.negative == |Filter(group, IsNegative)|
              && a.positive + a.negative >= 1
  {
    var gs := Rollup(records, ReviewKey);
    var out := AggregateQuarters(records);
    RollupGroups(records, ReviewKey);
    RollupGroupsNonEmpty(records, ReviewKey);
    forall i | 0 <= i < |out|
      ensures var group := Select(records, ReviewStart, out[i].start);
              && out[i].positive == |Filter(group, IsPositive)|
              && out[i].negative == |Filter(group, IsNegative)|
              && out[i].positive + out[i].negative >= 1
    {
      GroupByStart(records, gs[i].key);
      FilterComplement(gs[i].items, IsPositive, IsNegative);
    }
  }

  /** The reviews of a quarter key that occurs are exactly the reviews with that quarter start. */
  lemma {:induction false} GroupByStart(records: seq<Review>, k: string)
    requires k in Project(records, ReviewKey)
    ensures Select(records, ReviewKey, k) == Select(records, ReviewStart, DecodeKey(k))
  {
    var ks := Project(records, ReviewKey);
    var j := FirstIndex(ks, k);
    var d := records[j].date;
    KeyRoundTrip(d);
    SelectByStart(records, d);
  }

  /** Reviews arriving from the loader: everything counted is an accepted row. */
  lemma {:induction false} PipelineCountsAcceptedRows(rows: seq<RawRow>)
    ensures var out := AggregateQuarters(AcceptedReviews(rows));
            TotalPositive(out) + TotalNegative(out) == |Filter(rows, Accepted)|
  {
    AggregateConserves(AcceptedReviews(rows));
  }

  // ---------------------------------------------------------------------------
  // Key decoding exactly as written
  // ---------------------------------------------------------------------------

  /**
   `new Date(year, month, 1)` treats a year argument from 0 to 99 as 1900 plus
   that year, before normalising the month.
   */
  function LegacyYear(year: int): int
  {
    if 0 <= year <= 99 then 1900 + year else year
  }

  /** The decoding written in js/animation.js: the year goes through the `Date` constructor. */
  function DecodeKeyAsWritten(key: string): DateValue
  {
    match DecodeParts(key)
    case None => InvalidDate
    case Some((year, quarter)) => MakeDate(LegacyYear(year), (quarter - 1) * 3)
  }

  /**
   For a review dated in a year below 100 the written decoding moves the
   quarter 1900 years later, so it disagrees with the quarter the key was made
   from; from year 100 on both decodings agree.
   */
  lemma {:induction false} AsWrittenShiftsSmallYears(d: CalDate)
    ensures d.year < 100 ==>
              && DecodeKeyAsWritten(QuarterKey(Some(d))) == DateOf(1900 + d.year, (Quarter(d) - 1) * 3, 1)
              && DecodeKeyAsWritten(QuarterKey(Some(d))) != QuarterStart(Some(d))
    ensures d.year >= 100 ==> DecodeKeyAsWritten(QuarterKey(Some(d))) == DecodeKey(QuarterKey(Some(d)))
  {
    ValidKeyParts(d);
  }

  /** A concrete review dated 0050-02-10 lands in the first quarter of 1950. */
  lemma {:induction false} AsWrittenCounterexample()
    ensures DecodeKeyAsWritten(QuarterKey(Some(CalDate(50, 1, 10)))) == DateOf(1950, 0, 1)
    ensures QuarterStart(Some(CalDate(50, 1, 10))) == DateOf(50, 0, 1)
  {
    var d := CalDate(50, 1, 10);
    assert Quarter(d) == 1;
    AsWrittenShiftsSmallYears(d);
  }
}
