/**
 The playtime-by-language bar chart (js/vis_bar.js): playtime is summed per
 review language, the totals are sorted in descending order, the three largest
 are kept and the rest are folded into one "Other" bar; the four-slot legend
 names the bars.
 */
module Playtime {
  import opened Wrappers
  import opened Seqs
  import opened Text
  import opened Rollups

  /** A review row as the chart reads it: the `language` cell and the `playtime_at_review` cell. */
  datatype Row = Row(language: string, playtimeText: string)

  /** An entry of `aggregatedData` and `finalData`. */
  datatype LangTotal = LangTotal(language: string, playtime: nat)

  /** Number of languages shown with their own bar. */
  const TopCount := 3
  const OtherLabel := "Other"
  /** The legend has one slot per colour of the four-colour palette. */
  const LegendSlots := 4

  function LanguageOf(r: Row): string
  {
    r.language
  }

  function NameOf(t: LangTotal): string
  {
    t.language
  }

  /**
   What one row adds to `d3.sum(v, d => +d.playtime_at_review)`: the cell's
   numeric value; d3.sum skips a NaN, so text that is not a number adds 0.
   */
  function Playtime(r: Row): nat
  {
    match StringToNumber(r.playtimeText)
    case None => 0
    case Some(n) => n
  }

  /** `d3.sum` of the playtime column over some rows. */
  function RowPlaytime(rows: seq<Row>): nat
  {
    if |rows| == 0 then 0 else RowPlaytime(DropLast(rows)) + Playtime(Last(rows))
  }

  /** Total playtime of a list of entries. */
  function Sum(ts: seq<LangTotal>): nat
  {
    if |ts| == 0 then 0 else Sum(DropLast(ts)) + Last(ts).playtime
  }

  /** The rollup's reduce step: one entry per language group with the group's summed playtime. */
  function Totals(gs: seq<Group<string, Row>>): (ts: seq<LangTotal>)
    ensures |ts| == |gs|
    ensures forall i :: 0 <= i < |gs| ==> ts[i] == LangTotal(gs[i].key, RowPlaytime(gs[i].items))
  {
    if |gs| == 0 then [] else Totals(DropLast(gs)) + [LangTotal(Last(gs).key, RowPlaytime(Last(gs).items))]
  }

  /** The per-language sums in first-seen order of the language. */
  function LanguageTotals(rows: seq<Row>): seq<LangTotal>
  {
    Totals(Rollup(rows, LanguageOf))
  }

  predicate SortedDesc(ts: seq<LangTotal>)
  {
    forall i, j :: 0 <= i < j < |ts| ==> ts[i].playtime >= ts[j].playtime
  }

  /**
   Where a stable descending sort puts `x` among the already sorted `s`: after
   every entry whose playtime is at least `x`'s.
   */
  function InsertPosition(s: seq<LangTotal>, x: LangTotal): (k: nat)
    ensures k <= |s|
    ensures k > 0 ==> s[k - 1].playtime >= x.playtime
    ensures forall i :: k <= i < |s| ==> s[i].playtime < x.playtime
  {
    if |s| == 0 || Last(s).playtime >= x.playtime then |s| else InsertPosition(DropLast(s), x)
  }

  /** `s` with `x` inserted at index `k`. */
  function InsertAt(s: seq<LangTotal>, x: LangTotal, k: nat): (r: seq<LangTotal>)
    requires k <= |s|
    ensures |r| == |s| + 1
    ensures forall i :: 0 <= i < k ==> r[i] == s[i]
    ensures r[k] == x
    ensures forall i :: k < i < |r| ==> r[i] == s[i - 1]
  {
    s[..k] + [x] + s[k..]
  }

  lemma {:induction false} InsertAtPositionSorted(s: seq<LangTotal>, x: LangTotal)
    requires SortedDesc(s)
    ensures SortedDesc(InsertAt(s, x, InsertPosition(s, x)))
  {
    var k := InsertPosition(s, x);
    var r := InsertAt(s, x, k);
    assert forall i :: 0 <= i < k ==> s[i].playtime >= x.playtime;
  }

  /** Stable insertion of `x` into the descending list `s`. */
  function InsertDesc(s: seq<LangTotal>, x: LangTotal): seq<LangTotal>
  {
    InsertAt(s, x, InsertPosition(s, x))
  }

  /**
   `Array.prototype.sort` with comparator `b.playtime - a.playtime`, which is
   stable: an insertion sort that places each entry after the equal ones.
   */
  function SortDesc(xs: seq<LangTotal>): (r: seq<LangTotal>)
    ensures |r| == |xs|
    ensures SortedDesc(r)
  {
    if |xs| == 0 then []
    else
      var s := SortDesc(DropLast(xs));
      InsertAtPositionSorted(s, Last(xs));
      InsertDesc(s, Last(xs))
  }

  /** `aggregatedData`: the per-language totals, largest first. */
  function AggregatedData(rows: seq<Row>): seq<LangTotal>
  {
    SortDesc(LanguageTotals(rows))
  }

  function Min(a: int, b: int): int
  {
    if a < b then a else b
  }

  /** `finalData`: the first three entries and an "Other" entry holding the playtime of all the rest. */
  function FinalData(sorted: seq<LangTotal>): seq<LangTotal>
  {
    var k := Min(|sorted|, TopCount);
    sorted[..k] + [LangTotal(OtherLabel, Sum(sorted[k..]))]
  }

  /** `finalData[index]?.language || "Other"`: a missing entry or an empty language name shows as "Other". */
  function LegendLabel(final: seq<LangTotal>, i: nat): string
  {
    if i < |final| && final[i].language != "" then final[i].language else OtherLabel
  }

  function LegendLabels(final: seq<LangTotal>): (labels: seq<string>)
    ensures |labels| == LegendSlots
  {
    seq(LegendSlots, i requires 0 <= i < LegendSlots => LegendLabel(final, i))
  }

  // ---------------------------------------------------------------------------
  // Lemmas
  // ---------------------------------------------------------------------------

  lemma {:induction false} SumAppend(a: seq<LangTotal>, b: seq<LangTotal>)
    ensures Sum(a + b) == Sum(a) + Sum(b)
  {
    if |b| > 0 {
      SumAppend(a, DropLast(b));
      assert DropLast(a + b) == a + DropLast(b);
    } else {
      assert a + b == a;
    }
  }

  lemma {:induction false} PlaytimeAdditive()
    ensures Additive(RowPlaytime)
  {
    forall s: seq<Row>, x: Row
      ensures RowPlaytime(s + [x]) == RowPlaytime(s) + RowPlaytime([x])
    {
      assert DropLast(s + [x]) == s;
      assert DropLast([x]) == [];
    }
  }

  lemma {:induction false} TotalsSum(gs: seq<Group<string, Row>>)
    ensures Sum(Totals(gs)) == SumOver(gs, RowPlaytime)
  {
    if |gs| > 0 {
      TotalsSum(DropLast(gs));
      assert DropLast(Totals(gs)) == Totals(DropLast(gs));
    }
  }

  lemma {:induction false} InsertAtMultiset(s: seq<LangTotal>, x: LangTotal, k: nat)
    requires k <= |s|
    ensures multiset(InsertAt(s, x, k)) == multiset(s) + multiset{x}
  {
    assert s == s[..k] + s[k..];
  }

  lemma {:induction false} SumInsertAt(s: seq<LangTotal>, x: LangTotal, k: nat)
    requires k <= |s|
    ensures Sum(InsertAt(s, x, k)) == Sum(s) + x.playtime
  {
    var a, b := s[..k], s[k..];
    assert Sum(a + [x] + b) == Sum(a) + x.playtime + Sum(b) by {
      SumAppend(a + [x], b);
      SumAppend(a, [x]);
      assert DropLast([x]) == [];
    }
    assert Sum(s) == Sum(a) + Sum(b) by {
      SumAppend(a, b);
      assert a + b == s;
    }
  }

  /** The sort is a permutation of its input. */
  lemma {:induction false} SortPermutes(xs: seq<LangTotal>)
    ensures multiset(SortDesc(xs)) == multiset(xs)
  {
    if |xs| > 0 {
      var d, x := DropLast(xs), Last(xs);
      var s := SortDesc(d);
      var k := InsertPosition(s, x);
      calc {
        multiset(SortDesc(xs));
        { SortStep(xs); }
        multiset(InsertAt(s, x, k));
        { InsertAtMultiset(s, x, k); }
        multiset(s) + multiset{x};
        { SortPermutes(d); }
        multiset(d) + multiset{x};
        { assert xs == d + [x]; }
        multiset(xs);
      }
    }
  }

  /** One insertion step of the sort. */
  lemma {:induction false} SortStep(xs: seq<LangTotal>)
    requires |xs| > 0
    ensures SortDesc(xs) == InsertDesc(SortDesc(DropLast(xs)), Last(xs))
  {
  }

  /** Every entry of the sorted list comes from the input. */
  lemma {:induction false} SortElements(xs: seq<LangTotal>)
    ensures forall i :: 0 <= i < |xs| ==> SortDesc(xs)[i] in xs
  {
    SortPermutes(xs);
    var r := SortDesc(xs);
    forall i | 0 <= i < |xs|
      ensures r[i] in xs
    {
      assert r[i] in multiset(r);
    }
  }

  /** Sorting neither adds nor loses playtime. */
  lemma {:induction false} SortKeepsSum(xs: seq<LangTotal>)
    ensures Sum(SortDesc(xs)) == Sum(xs)
  {
    if |xs| > 0 {
      var s := SortDesc(DropLast(xs));
      SortKeepsSum(DropLast(xs));
      SumInsertAt(s, Last(xs), InsertPosition(s, Last(xs)));
    }
  }

  /**
   Each language appears once in the per-language totals, in first-seen order,
   with the sum of the playtime of exactly its rows.
   */
  lemma {:induction false} LanguageTotalsSpec(rows: seq<Row>)
    ensures Project(LanguageTotals(rows), NameOf) == FirstSeen(Project(rows, LanguageOf))
    ensures forall i :: 0 <= i < |LanguageTotals(rows)| ==>
              LanguageTotals(rows)[i].playtime == RowPlaytime(Select(rows, LanguageOf, LanguageTotals(rows)[i].language))
  {
    RollupGroups(rows, LanguageOf);
    var gs := Rollup(rows, LanguageOf);
    assert Project(LanguageTotals(rows), NameOf) == Keys(gs);
  }

  /** Entries of `r` with equal playtime appear in the order of their first occurrence in `xs`. */
  predicate StableFor(r: seq<LangTotal>, xs: seq<LangTotal>)
  {
    forall i, j :: 0 <= i < j < |r| && r[i].playtime == r[j].playtime ==>
      r[i] in xs && r[j] in xs && FirstIndex(xs, r[i]) < FirstIndex(xs, r[j])
  }

  /** Inserting a new last entry keeps equal-playtime entries in input order. */
  lemma {:induction false} InsertKeepsStable(s: seq<LangTotal>, d: seq<LangTotal>, x: LangTotal)
    requires StableFor(s, d)
    requires forall i :: 0 <= i < |s| ==> s[i] in d
    requires x !in d
    ensures StableFor(InsertDesc(s, x), d + [x])
  {
    var k := InsertPosition(s, x);
    var r := InsertAt(s, x, k);
    assert InsertDesc(s, x) == r;
    forall i, j | 0 <= i < j < |r| && r[i].playtime == r[j].playtime
      ensures r[i] in d + [x] && r[j] in d + [x] && FirstIndex(d + [x], r[i]) < FirstIndex(d + [x], r[j])
    {
      if i == k {
        assert false;
      }
      var a := if i < k then i else i - 1;
      assert r[i] == s[a];
      if j == k {
        FirstIndexSnoc(d, x, s[a]);
        FirstIndexNew(d, x);
      } else {
        var b := if j < k then j else j - 1;
        assert r[j] == s[b] && a < b;
        StablePairSnoc(s, d, x, a, b);
      }
    }
  }

  /** A pair ordered by first occurrence in `d` stays ordered once `x` is appended to `d`. */
  lemma {:induction false} StablePairSnoc(s: seq<LangTotal>, d: seq<LangTotal>, x: LangTotal, a: nat, b: nat)
    requires StableFor(s, d)
    requires a < b < |s| && s[a].playtime == s[b].playtime
    ensures s[a] in d + [x] && s[b] in d + [x] && FirstIndex(d + [x], s[a]) < FirstIndex(d + [x], s[b])
  {
    FirstIndexSnoc(d, x, s[a]);
    FirstIndexSnoc(d, x, s[b]);
  }

  /** The sort is stable: entries of equal playtime keep their input order. */
  lemma {:induction false} SortStable(xs: seq<LangTotal>)
    requires NoDup(xs)
    ensures StableFor(SortDesc(xs), xs)
  {
    if |xs| > 0 {
      var d := DropLast(xs);
      assert forall i :: 0 <= i < |d| ==> d[i] == xs[i];
      SortStable(d);
      SortElements(d);
      assert xs == d + [Last(xs)];
      InsertKeepsStable(SortDesc(d), d, Last(xs));
    }
  }

  /** Permuting entries keeps the set of names and, for distinct names, their distinctness. */
  lemma {:induction false} PermutationKeepsNames(a: seq<LangTotal>, b: seq<LangTotal>)
    requires multiset(a) == multiset(b)
    requires NoDup(Project(b, NameOf))
    ensures NoDup(Project(a, NameOf))
    ensures Elems(Project(a, NameOf)) == Elems(Project(b, NameOf))
  {
    PermutationMembers(a, b);
    PermutationMembers(b, a);
    PermutationDistinctNames(a, b);
    assert forall n :: n in Project(a, NameOf) <==> n in Project(b, NameOf) by {
      forall n | n in Project(a, NameOf)
        ensures n in Project(b, NameOf)
      {
        var i :| 0 <= i < |a| && Project(a, NameOf)[i] == n;
        var bi := FirstIndex(b, a[i]);
        assert Project(b, NameOf)[bi] == n;
      }
      forall n | n in Project(b, NameOf)
        ensures n in Project(a, NameOf)
      {
        var i :| 0 <= i < |b| && Project(b, NameOf)[i] == n;
        var ai := FirstIndex(a, b[i]);
        assert Project(a, NameOf)[ai] == n;
      }
    }
  }

  lemma {:induction false} PermutationMembers<T>(a: seq<T>, b: seq<T>)
    requires multiset(a) == multiset(b)
    ensures forall i :: 0 <= i < |a| ==> a[i] in b
  {
    forall i | 0 <= i < |a|
      ensures a[i] in b
    {
      assert a[i] in multiset(a);
    }
  }

  lemma {:induction false} PermutationDistinctNames(a: seq<LangTotal>, b: seq<LangTotal>)
    requires multiset(a) == multiset(b)
    requires NoDup(Project(b, NameOf))
    requires forall i :: 0 <= i < |a| ==> a[i] in b
    ensures NoDup(Project(a, NameOf))
  {
    NoDupNames(b);
    forall i, j | 0 <= i < j < |a|
      ensures a[i].language != a[j].language
    {
      if a[i].language == a[j].language {
        var bi, bj := FirstIndex(b, a[i]), FirstIndex(b, a[j]);
        assert Project(b, NameOf)[bi] == Project(b, NameOf)[bj];
        assert a[i] == a[j];
        MultiplicityTwo(a, i, j);
        MultiplicityOne(b, bi);
        assert false;
      }
    }
  }

  /** Distinct names make distinct entries. */
  lemma {:induction false} NoDupNames(b: seq<LangTotal>)
    requires NoDup(Project(b, NameOf))
    ensures NoDup(b)
  {
    forall i, j | 0 <= i < j < |b|
      ensures b[i] != b[j]
    {
      assert Project(b, NameOf)[i] != Project(b, NameOf)[j];
    }
  }

  lemma {:induction false} MultiplicityTwo<T>(a: seq<T>, i: nat, j: nat)
    requires i < j < |a| && a[i] == a[j]
    ensures multiset(a)[a[i]] >= 2
  {
    assert a == a[..i] + [a[i]] + a[i + 1..j] + [a[j]] + a[j + 1..];
  }

  lemma {:induction false} MultiplicityOne<T>(b: seq<T>, k: nat)
    requires NoDup(b) && k < |b|
    ensures multiset(b)[b[k]] == 1
  {
    assert b == b[..k] + [b[k]] + b[k + 1..];
    assert b[k] !in b[..k] && b[k] !in b[k + 1..];
  }

  /** `aggregatedData` names every language of the input exactly once. */
  lemma {:induction false} AggregatedDataNames(rows: seq<Row>)
    ensures NoDup(Project(AggregatedData(rows), NameOf))
    ensures Elems(Project(AggregatedData(rows), NameOf)) == Elems(Project(rows, LanguageOf))
  {
    var ts := LanguageTotals(rows);
    TotalsNames(rows);
    assert multiset(AggregatedData(rows)) == multiset(ts) by {
      SortPermutes(ts);
    }
    PermutationKeepsNames(AggregatedData(rows), ts);
  }

  /** Before sorting, the totals name every language of the input exactly once. */
  lemma {:induction false} TotalsNames(rows: seq<Row>)
    ensures NoDup(Project(LanguageTotals(rows), NameOf))
    ensures Elems(Project(LanguageTotals(rows), NameOf)) == Elems(Project(rows, LanguageOf))
  {
    LanguageTotalsSpec(rows);
    var ps := Project(rows, LanguageOf);
    assert Elems(FirstSeen(ps)) == Elems(ps);
  }

  /**
   `aggregatedData`: in non-increasing order of playtime, each entry carrying
   the summed playtime of exactly the rows of its language, and entries of
   equal playtime in the order their languages first occur.
   */
  lemma {:induction false} AggregatedDataSpec(rows: seq<Row>)
    ensures SortedDesc(AggregatedData(rows))
    ensures forall i :: 0 <= i < |AggregatedData(rows)| ==>
              AggregatedData(rows)[i].playtime == RowPlaytime(Select(rows, LanguageOf, AggregatedData(rows)[i].language))
    ensures StableFor(AggregatedData(rows), LanguageTotals(rows))
  {
    var ts := LanguageTotals(rows);
    var ad := AggregatedData(rows);
    LanguageTotalsSpec(rows);
    SortElements(ts);
    forall i | 0 <= i < |ad|
      ensures ad[i].playtime == RowPlaytime(Select(rows, LanguageOf, ad[i].language))
    {
      var j := FirstIndex(ts, ad[i]);
    }
    NoDupNames(ts);
    SortStable(ts);
  }

  /**
   The shape of `finalData`: the first min(k, 3) entries of the sorted list
   unchanged, then "Other" holding what the kept entries do not, which is 0 when
   there are at most three languages.
   */
  lemma {:induction false} FinalDataShape(sorted: seq<LangTotal>)
    ensures var final := FinalData(sorted);
            && |final| == Min(|sorted|, TopCount) + 1
            && final[..|final| - 1] == sorted[..|final| - 1]
            && Last(final).language == OtherLabel
            && Last(final).playtime == Sum(sorted) - Sum(sorted[..|final| - 1])
            && (|sorted| <= TopCount ==> Last(final).playtime == 0)
  {
    var k := Min(|sorted|, TopCount);
    SumAppend(sorted[..k], sorted[k..]);
    assert sorted == sorted[..k] + sorted[k..];
    var final := FinalData(sorted);
    assert final[..k] == sorted[..k];
  }

  /** Folding the tail into "Other" loses no playtime. */
  lemma {:induction false} FinalDataConserves(sorted: seq<LangTotal>)
    ensures Sum(FinalData(sorted)) == Sum(sorted)
  {
    var k := Min(|sorted|, TopCount);
    var other := LangTotal(OtherLabel, Sum(sorted[k..]));
    SumAppend(sorted[..k], [other]);
    SumAppend(sorted[..k], sorted[k..]);
    assert sorted == sorted[..k] + sorted[k..];
    assert DropLast([other]) == [];
  }

  /** Every entry kept for its own bar has at least the playtime of every language folded into "Other". */
  lemma {:induction false} TopDominatesOther(sorted: seq<LangTotal>)
    requires SortedDesc(sorted)
    ensures forall i, j :: 0 <= i < |FinalData(sorted)| - 1 && TopCount <= j < |sorted| ==>
              FinalData(sorted)[i].playtime >= sorted[j].playtime
  {
  }

  /** End to end: the bars of the chart carry exactly the playtime of all input rows. */
  lemma {:induction false} ChartConservesPlaytime(rows: seq<Row>)
    ensures Sum(FinalData(AggregatedData(rows))) == RowPlaytime(rows)
  {
    FinalDataConserves(AggregatedData(rows));
    SortKeepsSum(LanguageTotals(rows));
    TotalsSum(Rollup(rows, LanguageOf));
    PlaytimeAdditive();
    RollupConserves(rows, LanguageOf, RowPlaytime);
  }

  /**
   The legend names slot i after bar i, or "Other" when there is no bar i or its
   language is empty; the chart never has more bars than legend slots, and its
   last bar is always labelled "Other".
   */
  lemma {:induction false} LegendSpec(sorted: seq<LangTotal>)
    ensures var final := FinalData(sorted);
            && |final| <= LegendSlots
            && (forall i :: 0 <= i < LegendSlots ==>
                  (LegendLabels(final)[i] == OtherLabel <==>
                     i >= |final| || final[i].language == "" || final[i].language == OtherLabel))
            && (forall i :: 0 <= i < |final| && final[i].language != "" ==>
                  LegendLabels(final)[i] == final[i].language)
            && LegendLabels(final)[|final| - 1] == OtherLabel
  {
  }
}
