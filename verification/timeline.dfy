/**
 The player-count timeline (js/timeline.js): CSV rows become points carrying the
 month label, its year token and the player count; the year buttons and the
 brush choose the points the focus chart redraws; the focus axis keeps about ten
 ticks and labels every other one.
 */
module Timeline {
  import opened Wrappers
  import opened Seqs
  import opened Text
  import opened Rollups

  /** A row of the player-count CSV: the `Month` and `Avg. Players` cells. */
  datatype CsvRow = CsvRow(month: string, avgPlayers: string)

  /**
   An entry of `parsedData`: `time` is the month label, `year` the second
   space-separated token of it (`None` for `undefined`), `players` the count
   (`None` for NaN).
   */
  datatype Point = Point(time: string, year: Option<string>, players: Option<nat>)

  /** A redrawn focus chart: the band-scale domain and the points drawn. */
  datatype Focus = Focus(domain: seq<string>, points: seq<Point>)

  const YearButtons: seq<string> := ["2021", "2022", "2023", "2024"]

  /** The focus axis aims at about this many ticks. */
  const TickTarget: nat := 10

  // ---------------------------------------------------------------------------
  // Parsing
  // ---------------------------------------------------------------------------

  /** `+text.replace(/,/g, "")`: the count with thousands separators removed, NaN unless digits remain. */
  function ParsePlayers(text: string): (n: Option<nat>)
    ensures n.None? <==> !AllDigits(StripCommas(text))
    ensures ',' !in text && AllDigits(text) ==> n == Some(ParseDigits(text))
  {
    StripCommasIdempotent(text);
    StringToNumber(StripCommas(text))
  }

  function ParsePoint(r: CsvRow): Point
  {
    Point(r.month, SecondToken(r.month, ' '), ParsePlayers(r.avgPlayers))
  }

  /** `data.map(...)`: one point per row, in row order, each keeping its month label unchanged. */
  function ParseRows(rows: seq<CsvRow>): (ps: seq<Point>)
    ensures |ps| == |rows|
    ensures forall i :: 0 <= i < |rows| ==> ps[i].time == rows[i].month && ps[i] == ParsePoint(rows[i])
  {
    if |rows| == 0 then [] else ParseRows(DropLast(rows)) + [ParsePoint(Last(rows))]
  }

  function TimeOf(p: Point): string
  {
    p.time
  }

  /**
   The band scale's domain for some points: their month labels, each once (the
   scale interns its domain), in first-seen order.
   */
  function Domain(ps: seq<Point>): seq<string>
  {
    FirstSeen(Project(ps, TimeOf))
  }

  // ---------------------------------------------------------------------------
  // Year buttons
  // ---------------------------------------------------------------------------

  function HasYear(year: string): Point -> bool
  {
    (p: Point) => p.year == Some(year)
  }

  /** `filterByYear`: the points of one year, in order, and the focus domain they give. */
  function FilterByYear(ps: seq<Point>, year: string): Focus
  {
    var filtered := Filter(ps, HasYear(year));
    Focus(Domain(filtered), filtered)
  }

  // ---------------------------------------------------------------------------
  // Brush
  // ---------------------------------------------------------------------------

  function Within(mid: string -> int, x0: int, x1: int): string -> bool
  {
    (d: string) => x0 <= mid(d) <= x1
  }

  function TimeIn(sel: seq<string>): Point -> bool
  {
    (p: Point) => p.time in sel
  }

  /**
   The brush handler. `mid(d)` is the pixel midpoint of the band of `d`; an empty
   selection (`None`) leaves the focus chart as it is. A selection `[x0, x1]`
   keeps the domain values whose midpoint lies in it and the points whose month
   is one of them.
   */
  function Brush(ps: seq<Point>, mid: string -> int, selection: Option<(int, int)>): Option<Focus>
  {
    match selection
    case None => None
    case Some((x0, x1)) =>
      var sel := Filter(Domain(ps), Within(mid, x0, x1));
      Some(Focus(sel, Filter(ps, TimeIn(sel))))
  }

  // ---------------------------------------------------------------------------
  // Axis ticks
  // ---------------------------------------------------------------------------

  /** `Math.ceil(n / 10)`. */
  function TickStep(n: nat): (step: nat)
    ensures step * TickTarget >= n
    ensures n > 0 ==> step > 0 && (step - 1) * TickTarget < n
    ensures n == 0 ==> step == 0
  {
    (n + TickTarget - 1) / TickTarget
  }

  /** `!(i % step)`; for step 0 the remainder is NaN, and `!NaN` is true. */
  predicate KeepTick(i: nat, step: nat)
  {
    step == 0 || i % step == 0
  }

  /** `domain.filter((_, i) => !(i % step))`. */
  function EveryStep(domain: seq<string>, step: nat): (r: seq<string>)
    ensures |r| <= |domain|
  {
    if |domain| == 0 then []
    else EveryStep(DropLast(domain), step) + (if KeepTick(|domain| - 1, step) then [Last(domain)] else [])
  }

  /** The tick values for a domain when the chart shows `n` points. */
  function TickValues(domain: seq<string>, n: nat): seq<string>
  {
    EveryStep(domain, TickStep(n))
  }

  /** `tickFormat((d, i) => i % 2 === 0 ? d : "")`. */
  function TickLabels(values: seq<string>): (labels: seq<string>)
    ensures |labels| == |values|
  {
    seq(|values|, i requires 0 <= i < |values| => if i % 2 == 0 then values[i] else "")
  }

  // ---------------------------------------------------------------------------
  // Lemmas: parsing
  // ---------------------------------------------------------------------------

  /**
   The year of a month label is its second space-separated token: for
   "February 2024" it is "2024", with or without further tokens.
   */
  lemma {:induction false} YearOfMonth(word: string, year: string, rest: string, players: string)
    requires ' ' !in word && ' ' !in year
    ensures ParsePoint(CsvRow(word + " " + year, players)).year == Some(year)
    ensures ParsePoint(CsvRow(word + " " + year + " " + rest, players)).year == Some(year)
  {
    SecondTokenOf(word, year, rest, ' ');
  }

  /** "Last 30 Days" has year token "30", which is none of the year buttons. */
  lemma {:induction false} LastThirtyDaysHasNoYear(players: string)
    ensures ParsePoint(CsvRow("Last 30 Days", players)).year == Some("30")
    ensures "30" !in YearButtons
  {
    LastThirtyDaysToken();
    ButtonsAreFourDigitYears();
  }

  lemma {:induction false} ButtonsAreFourDigitYears()
    ensures forall i :: 0 <= i < |YearButtons| ==> |YearButtons[i]| == 4
  {
  }

  lemma {:induction false} LastThirtyDaysToken()
    ensures SecondToken("Last 30 Days", ' ') == Some("30")
  {
    var w, y, z := "Last", "30", "Days";
    assert "Last 30 Days" == w + " " + y + " " + z;
    assert ' ' !in w && ' ' !in y;
    SecondTokenOf(w, y, z, ' ');
  }

  /** A label without a space has no year (`split(" ")[1]` is `undefined`). */
  lemma {:induction false} NoSpaceNoYear(month: string, players: string)
    requires ' ' !in month
    ensures ParsePoint(CsvRow(month, players)).year == None
  {
  }

  /** Thousands separators never change the count: a comma anywhere is ignored. */
  lemma {:induction false} PlayersIgnoreComma(a: string, b: string)
    ensures ParsePlayers(a + "," + b) == ParsePlayers(a + b)
  {
    assert Filter(",", NotComma) == [] by {
      assert DropLast(",") == [];
    }
    assert StripCommas(a + "," + b) == StripCommas(a + b) by {
      FilterAppend(a + ",", b, NotComma);
      FilterAppend(a, ",", NotComma);
      FilterAppend(a, b, NotComma);
    }
  }

  // ---------------------------------------------------------------------------
  // Lemmas: year filter and brush
  // ---------------------------------------------------------------------------

  /**
   The year filter keeps exactly the points of that year, every copy of them, in
   their original order; its domain lists their month labels, each once, ordered
   by where each label first occurs among the kept points.
   */
  lemma {:induction false} FilterByYearSpec(ps: seq<Point>, year: string)
    ensures var f := FilterByYear(ps, year);
            && IsSubseq(f.points, ps)
            && (forall p :: multiset(f.points)[p] == if p.year == Some(year) then multiset(ps)[p] else 0)
            && (forall t :: t in f.domain <==> t in Project(f.points, TimeOf))
            && NoDup(f.domain)
            && (forall i, j :: 0 <= i < j < |f.domain| ==>
                  FirstIndex(Project(f.points, TimeOf), f.domain[i]) < FirstIndex(Project(f.points, TimeOf), f.domain[j]))
  {
    FilterByYearPoints(ps, year);
    FirstSeenSpec(Project(FilterByYear(ps, year).points, TimeOf));
  }

  lemma {:induction false} FilterByYearPoints(ps: seq<Point>, year: string)
    ensures IsSubseq(FilterByYear(ps, year).points, ps)
    ensures forall p :: multiset(FilterByYear(ps, year).points)[p] == if p.year == Some(year) then multiset(ps)[p] else 0
  {
    FilterIsSubseq(ps, HasYear(year));
    FilterMultiset(ps, HasYear(year));
  }

  /** The points of different years are disjoint. */
  lemma {:induction false} YearsDisjoint(ps: seq<Point>, y1: string, y2: string)
    requires y1 != y2
    ensures forall i, j :: 0 <= i < |FilterByYear(ps, y1).points| && 0 <= j < |FilterByYear(ps, y2).points| ==>
              FilterByYear(ps, y1).points[i] != FilterByYear(ps, y2).points[j]
  {
  }

  /** Every value of the full domain is the month label of some point. */
  lemma {:induction false} DomainCovers(ps: seq<Point>)
    ensures forall i :: 0 <= i < |ps| ==> ps[i].time in Domain(ps)
    ensures forall t :: t in Domain(ps) ==> exists i :: 0 <= i < |ps| && ps[i].time == t
  {
    var ts := Project(ps, TimeOf);
    forall i | 0 <= i < |ps|
      ensures ps[i].time in Domain(ps)
    {
      assert ts[i] == ps[i].time;
    }
    forall t | t in Domain(ps)
      ensures exists i :: 0 <= i < |ps| && ps[i].time == t
    {
      var i :| 0 <= i < |ts| && ts[i] == t;
    }
  }

  /** A brush selection keeps a sub-sequence of the domain, without repeats. */
  lemma {:induction false} BrushDomain(ps: seq<Point>, mid: string -> int, x0: int, x1: int)
    ensures Brush(ps, mid, Some((x0, x1))).Some?
    ensures var f := Brush(ps, mid, Some((x0, x1))).value;
            IsSubseq(f.domain, Domain(ps)) && NoDup(f.domain)
  {
    FilterIsSubseq(Domain(ps), Within(mid, x0, x1));
    FilterNoDup(Domain(ps), Within(mid, x0, x1));
  }

  /**
   The points a brush selection passes on are, in their original order, exactly
   those whose band midpoint lies inside the selection.
   */
  lemma {:induction false} BrushPoints(ps: seq<Point>, mid: string -> int, x0: int, x1: int)
    ensures var f := Brush(ps, mid, Some((x0, x1))).value;
            f.points == Filter(ps, (p: Point) => x0 <= mid(p.time) <= x1) && IsSubseq(f.points, ps)
  {
    var sel := Filter(Domain(ps), Within(mid, x0, x1));
    DomainCovers(ps);
    forall i | 0 <= i < |ps|
      ensures TimeIn(sel)(ps[i]) == (x0 <= mid(ps[i].time) <= x1)
    {
      var t := ps[i].time;
      assert t in Domain(ps);
      var k :| 0 <= k < |Domain(ps)| && Domain(ps)[k] == t;
    }
    FilterCongruent(ps, TimeIn(sel), (p: Point) => x0 <= mid(p.time) <= x1);
    FilterIsSubseq(ps, TimeIn(sel));
  }


  // ---------------------------------------------------------------------------
  // Lemmas: ticks
  // ---------------------------------------------------------------------------

  lemma {:induction false} MulAtLeast(k: int, s: int)
    requires s > 0
    ensures k >= 1 ==> k * s >= s
    ensures k <= -1 ==> k * s <= -s
    decreases if k < 0 then -k else k
  {
    if k > 1 {
      MulAtLeast(k - 1, s);
      assert k * s == (k - 1) * s + s;
    } else if k < -1 {
      MulAtLeast(k + 1, s);
      assert k * s == (k + 1) * s - s;
    }
  }

  lemma {:induction false} DivUnique(a: int, s: int, q: int, r: int)
    requires s > 0 && a == q * s + r && 0 <= r < s
    ensures a / s == q
  {
    var q', r' := a / s, a % s;
    assert (q' - q) * s == r - r';
    MulAtLeast(q' - q, s);
  }

  /** How the closed-form tick count grows by one domain value. */
  lemma {:induction false} CeilStep(m: nat, s: nat)
    requires s > 0 && m > 0
    ensures KeepTick(m - 1, s) ==> (m - 1 + s - 1) / s == (m - 1) / s && (m + s - 1) / s == (m - 1) / s + 1
    ensures !KeepTick(m - 1, s) ==> (m + s - 1) / s == (m - 1 + s - 1) / s
  {
    var q, r := (m - 1) / s, (m - 1) % s;
    if r == 0 {
      DivUnique(m - 1 + s - 1, s, q, s - 1);
      DivUnique(m + s - 1, s, q + 1, 0);
    } else {
      DivUnique(m - 1 + s - 1, s, q + 1, r - 1);
      DivUnique(m + s - 1, s, q + 1, r);
    }
  }

  /**
   The index filter in closed form: with step 0 every value is a tick; with a
   positive step there are ceil(|domain| / step) ticks and tick j is domain value
   j * step.
   */
  lemma {:induction false} EveryStepSpec(domain: seq<string>, step: nat)
    ensures step == 0 ==> EveryStep(domain, step) == domain
    ensures step > 0 ==> |EveryStep(domain, step)| == (|domain| + step - 1) / step
    ensures step > 0 ==> forall j :: 0 <= j < |EveryStep(domain, step)| ==>
              j * step < |domain| && EveryStep(domain, step)[j] == domain[j * step]
  {
    if |domain| > 0 {
      var d := DropLast(domain);
      EveryStepSpec(d, step);
      assert d + [Last(domain)] == domain;
      if step > 0 {
        EveryStepGrow(domain, step);
      }
    }
  }

  /** One step of `EveryStepSpec`: the closed form for `domain` from the one for all but its last value. */
  lemma {:induction false} EveryStepGrow(domain: seq<string>, step: nat)
    requires |domain| > 0 && step > 0
    requires var rd := EveryStep(DropLast(domain), step);
             && |rd| == (|domain| - 1 + step - 1) / step
             && forall j :: 0 <= j < |rd| ==> j * step < |domain| - 1 && rd[j] == domain[j * step]
    ensures |EveryStep(domain, step)| == (|domain| + step - 1) / step
    ensures forall j :: 0 <= j < |EveryStep(domain, step)| ==>
              j * step < |domain| && EveryStep(domain, step)[j] == domain[j * step]
  {
    var m := |domain|;
    var r := EveryStep(domain, step);
    var rd := EveryStep(DropLast(domain), step);
    CeilStep(m, step);
    if KeepTick(m - 1, step) {
      var q := (m - 1) / step;
      DivExact(m - 1, step);
      assert r == rd + [domain[q * step]];
    } else {
      assert r == rd;
    }
  }

  /** An exact division multiplies back. */
  lemma {:induction false} DivExact(a: nat, s: nat)
    requires s > 0 && a % s == 0
    ensures a / s * s == a
  {
  }

  /** The first domain value is always a tick. */
  lemma {:induction false} FirstTickKept(domain: seq<string>, n: nat)
    requires |domain| > 0
    ensures |TickValues(domain, n)| > 0 && TickValues(domain, n)[0] == domain[0]
  {
    var s := TickStep(n);
    EveryStepSpec(domain, s);
    if s > 0 {
      assert (|domain| + s - 1) / s >= 1 by {
        DivUnique(|domain| + s - 1, s, (|domain| + s - 1) / s, (|domain| + s - 1) % s);
      }
    }
  }

  /** When the chart shows at least as many points as the domain has values, at most ten ticks survive. */
  lemma {:induction false} AtMostTenTicks(domain: seq<string>, n: nat)
    requires |domain| <= n
    ensures |TickValues(domain, n)| <= TickTarget
  {
    var s := TickStep(n);
    EveryStepSpec(domain, s);
    if s > 0 {
      CeilDivAtMost(|domain|, s, TickTarget);
    }
  }

  /** ceil(m / s) <= k when m <= k * s. */
  lemma {:induction false} CeilDivAtMost(m: nat, s: nat, k: nat)
    requires s > 0 && m <= k * s
    ensures (m + s - 1) / s <= k
  {
    var q := (m + s - 1) / s;
    assert q * s <= m + s - 1;
    assert (q - k) * s == q * s - k * s;
    MulAtLeast(q - k, s);
  }

  /** Tick labels: the even-numbered ticks show their value, the odd ones are blank. */
  lemma {:induction false} AxisLabels(domain: seq<string>, n: nat)
    requires n > 0
    ensures var labels := TickLabels(TickValues(domain, n));
            forall j :: 0 <= j < |labels| ==>
              j * TickStep(n) < |domain| && labels[j] == if j % 2 == 0 then domain[j * TickStep(n)] else ""
  {
    EveryStepSpec(domain, TickStep(n));
  }

  /** The initial axis: the full domain against all points. */
  lemma {:induction false} InitialAxisTicks(ps: seq<Point>)
    ensures |TickValues(Domain(ps), |ps|)| <= TickTarget
  {
    AtMostTenTicks(Domain(ps), |ps|);
  }

  /** After a year button: the year's domain against the year's points. */
  lemma {:induction false} YearAxisTicks(ps: seq<Point>, year: string)
    ensures var f := FilterByYear(ps, year);
            |TickValues(f.domain, |f.points|)| <= TickTarget
  {
    var f := FilterByYear(ps, year);
    AtMostTenTicks(f.domain, |f.points|);
  }

  /** After a brush: each selected month has at least one point, so at most ten ticks survive too. */
  lemma {:induction false} BrushAxisTicks(ps: seq<Point>, mid: string -> int, x0: int, x1: int)
    ensures var f := Brush(ps, mid, Some((x0, x1))).value;
            |f.domain| <= |f.points| && |TickValues(f.domain, |f.points|)| <= TickTarget
  {
    var f := Brush(ps, mid, Some((x0, x1))).value;
    BrushCovers(ps, mid, x0, x1);
    AtMostTenTicks(f.domain, |f.points|);
  }

  /** Every month a brush selects is the month of some selected point. */
  lemma {:induction false} BrushCovers(ps: seq<Point>, mid: string -> int, x0: int, x1: int)
    ensures var f := Brush(ps, mid, Some((x0, x1))).value;
            |f.domain| <= |f.points|
  {
    var f := Brush(ps, mid, Some((x0, x1))).value;
    var ts := Project(f.points, TimeOf);
    BrushDomain(ps, mid, x0, x1);
    assert forall t :: t in f.domain ==> t in Domain(ps) by {
      SubseqElems(f.domain, Domain(ps));
    }
    forall t | t in f.domain
      ensures t in ts
    {
      DomainCovers(ps);
      var i :| 0 <= i < |ps| && ps[i].time == t;
      assert TimeIn(f.domain)(ps[i]);
      var k := FirstIndex(f.points, ps[i]);
      assert ts[k] == t;
    }
    CoveredLength(f.domain, ts);
  }
}
