/**
 The review-language map (js/map.js): reviews are counted per language, and a
 marker is placed for each counted language that the fixed language-to-location
 table knows.
 */
module LanguageMap {
  import opened Seqs
  import opened Rollups

  /** A review row as the map reads it: its `language` cell. */
  datatype ReviewRow = ReviewRow(language: string)

  /** An entry of `languageCounts`. */
  datatype LanguageCount = LanguageCount(language: string, count: nat)

  /** Longitude and latitude in units of 1e-4 degree (no table entry has more than four decimals). */
  datatype Coord = Coord(lon: int, lat: int)

  /** A circle on the map: the language, its review count and where it is drawn. */
  datatype Marker = Marker(language: string, count: nat, at: Coord)

  /** `languageMapping`: where each known review language is drawn. */
  const LanguageTable: map<string, Coord> := map[
    "english" := Coord(-983500, 395000),
    "french" := Coord(22137, 462276),
    "schinese" := Coord(1041954, 358617),
    "koreana" := Coord(1277669, 359078),
    "spanish" := Coord(-37038, 404168),
    "russian" := Coord(376173, 557558),
    "turkish" := Coord(352433, 399208),
    "german" := Coord(104515, 511657),
    "italian" := Coord(125674, 418719),
    "brazilian" := Coord(-479292, -157801),
    "portuguese" := Coord(-82245, 393999),
    "ukrainian" := Coord(305234, 504501),
    "norwegian" := Coord(107522, 599139),
    "polish" := Coord(191451, 519194),
    "thai" := Coord(1009925, 158700),
    "finnish" := Coord(257482, 619241),
    "japanese" := Coord(1382529, 362048),
    "czech" := Coord(144378, 500755),
    "danish" := Coord(125683, 556761),
    "hungarian" := Coord(190402, 474979),
    "dutch" := Coord(49041, 523676),
    "latam" := Coord(-991332, 194326),
    "swedish" := Coord(180632, 593346),
    "vietnamese" := Coord(1066602, 107626),
    "indonesian" := Coord(1068456, -62088),
    "greek" := Coord(237275, 379838),
    "bulgarian" := Coord(233219, 426977)
  ]

  function LanguageOf(r: ReviewRow): string
  {
    r.language
  }

  function CountName(c: LanguageCount): string
  {
    c.language
  }

  function MarkerName(m: Marker): string
  {
    m.language
  }

  /** `v => v.length`. */
  function Size(rows: seq<ReviewRow>): nat
  {
    |rows|
  }

  function Counts(gs: seq<Group<string, ReviewRow>>): (cs: seq<LanguageCount>)
    ensures |cs| == |gs|
    ensures forall i :: 0 <= i < |gs| ==> cs[i] == LanguageCount(gs[i].key, |gs[i].items|)
  {
    if |gs| == 0 then [] else Counts(DropLast(gs)) + [LanguageCount(Last(gs).key, |Last(gs).items|)]
  }

  /** `languageCounts`: the number of reviews per language, in first-seen order of the language. */
  function LanguageCounts(rows: seq<ReviewRow>): seq<LanguageCount>
  {
    Counts(Rollup(rows, LanguageOf))
  }

  /** Sum of the counts. */
  function Total(cs: seq<LanguageCount>): int
  {
    if |cs| == 0 then 0 else Total(DropLast(cs)) + Last(cs).count
  }

  function Known(c: LanguageCount): bool
  {
    c.language in LanguageTable
  }

  /**
   The marker loop: `languageMapping[language]` is a two-number array, so the
   `if (coord)` guard passes exactly for the table's languages; others are skipped.
   */
  function Markers(cs: seq<LanguageCount>): (ms: seq<Marker>)
    ensures |ms| <= |cs|
    ensures forall i :: 0 <= i < |ms| ==> ms[i].language in LanguageTable && ms[i].at == LanguageTable[ms[i].language]
  {
    if |cs| == 0 then []
    else
      var c := Last(cs);
      Markers(DropLast(cs)) + (if c.language in LanguageTable then [Marker(c.language, c.count, LanguageTable[c.language])] else [])
  }

  // ---------------------------------------------------------------------------
  // Lemmas
  // ---------------------------------------------------------------------------

  /** Every language of the table is placed at a valid longitude and latitude. */
  lemma {:induction false} TableShape()
    ensures forall l :: l in LanguageTable ==>
              -1800000 <= LanguageTable[l].lon <= 1800000 && -900000 <= LanguageTable[l].lat <= 900000
  {
  }

  lemma {:induction false} SizeAdditive()
    ensures Additive(Size)
  {
  }

  lemma {:induction false} CountsTotal(gs: seq<Group<string, ReviewRow>>)
    ensures Total(Counts(gs)) == SumOver(gs, Size)
  {
    if |gs| > 0 {
      CountsTotal(DropLast(gs));
      assert DropLast(Counts(gs)) == Counts(DropLast(gs));
    }
  }

  /**
   `languageCounts` has one entry per distinct language, in first-seen order;
   each count is the number of reviews in that language and at least 1, and the
   counts add up to the number of reviews.
   */
  lemma {:induction false} LanguageCountsSpec(rows: seq<ReviewRow>)
    ensures Project(LanguageCounts(rows), CountName) == FirstSeen(Project(rows, LanguageOf))
    ensures forall i :: 0 <= i < |LanguageCounts(rows)| ==>
              LanguageCounts(rows)[i].count == |Select(rows, LanguageOf, LanguageCounts(rows)[i].language)| >= 1
    ensures Total(LanguageCounts(rows)) == |rows|
  {
    CountedLanguages(rows);
    CountedReviews(rows);
    CountedTotal(rows);
  }

  lemma {:induction false} CountedLanguages(rows: seq<ReviewRow>)
    ensures Project(LanguageCounts(rows), CountName) == FirstSeen(Project(rows, LanguageOf))
  {
    RollupKeys(rows, LanguageOf);
    assert Project(LanguageCounts(rows), CountName) == Keys(Rollup(rows, LanguageOf));
  }

  lemma {:induction false} CountedReviews(rows: seq<ReviewRow>)
    ensures forall i :: 0 <= i < |LanguageCounts(rows)| ==>
              LanguageCounts(rows)[i].count == |Select(rows, LanguageOf, LanguageCounts(rows)[i].language)| >= 1
  {
    RollupItems(rows, LanguageOf);
    RollupGroupsNonEmpty(rows, LanguageOf);
  }

  lemma {:induction false} CountedTotal(rows: seq<ReviewRow>)
    ensures Total(LanguageCounts(rows)) == |rows|
  {
    CountsTotal(Rollup(rows, LanguageOf));
    SizeAdditive();
    RollupConserves(rows, LanguageOf, Size);
  }

  /** The markers are the counted languages the table knows, in order, with their counts. */
  lemma {:induction false} MarkersSpec(cs: seq<LanguageCount>)
    ensures Project(Markers(cs), MarkerName) == Project(Filter(cs, Known), CountName)
    ensures forall i :: 0 <= i < |Markers(cs)| ==> Markers(cs)[i].count == Filter(cs, Known)[i].count
  {
    if |cs| > 0 {
      MarkersSpec(DropLast(cs));
      var c := Last(cs);
      var ms, fs := Markers(DropLast(cs)), Filter(DropLast(cs), Known);
      assert |ms| == |fs| by {
        assert |Project(ms, MarkerName)| == |Project(fs, CountName)|;
      }
      if Known(c) {
        ProjectSnoc(ms, Marker(c.language, c.count, LanguageTable[c.language]), MarkerName);
        ProjectSnoc(fs, c, CountName);
      }
    }
  }

  /** A counted language gets a marker exactly when the table knows it. */
  lemma {:induction false} MarkerIffKnown(cs: seq<LanguageCount>, language: string)
    requires language in Project(cs, CountName)
    ensures language in Project(Markers(cs), MarkerName) <==> language in LanguageTable
  {
    var ns := Project(cs, CountName);
    assert Project(Markers(cs), MarkerName) == Filter(ns, InTable(LanguageTable)) by {
      MarkersSpec(cs);
      FilterProject(cs, Known, CountName, InTable(LanguageTable));
    }
    FilterMember(ns, InTable(LanguageTable), language);
  }

  /** The number of markers is the number of distinct review languages the table knows. */
  lemma {:induction false} MarkerCount(rows: seq<ReviewRow>)
    ensures |Markers(LanguageCounts(rows))| == |Elems(Project(rows, LanguageOf)) * LanguageTable.Keys|
  {
    var cs := LanguageCounts(rows);
    var ns := Project(cs, CountName);
    assert NoDup(ns) && Elems(ns) == Elems(Project(rows, LanguageOf)) by {
      LanguageCountsSpec(rows);
      var langs := Project(rows, LanguageOf);
      assert forall i :: 0 <= i < |langs| ==> langs[i] in ns;
    }
    assert |Markers(cs)| == |Project(Filter(cs, Known), CountName)| by {
      MarkersSpec(cs);
    }
    assert Project(Filter(cs, Known), CountName) == Filter(ns, InTable(LanguageTable)) by {
      FilterProject(cs, Known, CountName, InTable(LanguageTable));
    }
    KnownCount(ns, LanguageTable);
  }

  function InTable<K, V>(m: map<K, V>): K -> bool
  {
    (k: K) => k in m
  }

  /** Keeping the keys of a map from a duplicate-free sequence leaves one entry per key present. */
  lemma {:induction false} KnownCount<K, V>(ns: seq<K>, m: map<K, V>)
    requires NoDup(ns)
    ensures |Filter(ns, InTable(m))| == |Elems(ns) * m.Keys|
  {
    var ks := Filter(ns, InTable(m));
    FilterNoDup(ns, InTable(m));
    NoDupCard(ks);
    assert Elems(ks) == Elems(ns) * m.Keys;
  }
}
