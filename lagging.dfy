/**
 * `create_lagged_features`: sort the table by (Country, Year), give every
 * row a `_Lag1` copy of six indicators taken from the previous row of the
 * same country (`groupby('Country')[feature].shift(1)`), then drop every
 * row that still holds a missing value (`dropna`).
 */
module Lagging {
  import opened Wrappers
  import opened Text
  import opened Sequences

  /** A numeric cell of the table; None is a missing value (NaN). */
  type Cell = Option<real>

  /** The indicator columns that receive a lagged copy, in the order the loop visits them. */
  const LaggedIndicators: seq<string> := [
    "Population_Growth_Rate",
    "Exports of goods and services_Growth_Rate",
    "Imports of goods and services_Growth_Rate",
    "Gross capital formation_Growth_Rate",
    "Final consumption expenditure_Growth_Rate",
    "Government_Expenditure_Growth_Rate"
  ]

  const IndicatorCount: nat := 6

  /** The name of the lagged copy of a column (`f'{feature}_Lag1'`). */
  function LagColumn(feature: string): string {
    feature + "_Lag1"
  }

  /**
   * One row of the GDP table: the two key columns, the target, the six
   * indicators in `LaggedIndicators` order and the remaining numeric
   * columns, which take part in `dropna` only.
   */
  datatype Observation = Observation(country: string, year: int, gdpGrowth: Cell,
                                     indicators: seq<Cell>, others: seq<Cell>)

  predicate WellFormed(df: seq<Observation>) {
    forall i :: 0 <= i < |df| ==> |df[i].indicators| == IndicatorCount
  }

  /** A row together with its six `_Lag1` cells. */
  datatype Shifted = Shifted(obs: Observation, lags: seq<Cell>)

  predicate AllPresent(cells: seq<Cell>) {
    forall k :: 0 <= k < |cells| ==> cells[k].Some?
  }

  /** No missing value among the columns of the loaded table. */
  predicate RowComplete(o: Observation) {
    o.gdpGrowth.Some? && AllPresent(o.indicators) && AllPresent(o.others)
  }

  /** What `dropna` keeps: rows with no missing value in any column. */
  predicate Complete(r: Shifted) {
    RowComplete(r.obs) && AllPresent(r.lags)
  }

  /** The order of `sort_values(['Country', 'Year'])`: by country name, then by year. */
  predicate CountryYearLe(a: Observation, b: Observation) {
    Less(a.country, b.country) || (a.country == b.country && a.year <= b.year)
  }

  lemma CountryYearOrder()
    ensures Total(CountryYearLe) && Transitive(CountryYearLe)
  {
    forall a: Observation, b: Observation ensures CountryYearLe(a, b) || CountryYearLe(b, a) {
      LessTotal(a.country, b.country);
    }
    forall a: Observation, b: Observation, c: Observation | CountryYearLe(a, b) && CountryYearLe(b, c)
      ensures CountryYearLe(a, c)
    {
      if Less(a.country, b.country) && Less(b.country, c.country) {
        LessTransitive(a.country, b.country, c.country);
      }
    }
  }

  function SortByCountryYear(df: seq<Observation>): (s: seq<Observation>)
    ensures multiset(s) == multiset(df)
    ensures SortedBy(s, CountryYearLe)
  {
    CountryYearOrder();
    InsertionSort(df, CountryYearLe)
  }

  /** The last position before `i` that holds a row of country `c`. */
  function PrevOfCountry(s: seq<Observation>, c: string, i: nat): (r: Option<nat>)
    requires i <= |s|
    ensures r.Some? ==> r.value < i && s[r.value].country == c
    ensures r.Some? ==> forall j :: r.value < j < i ==> s[j].country != c
    ensures r.None? ==> forall j :: 0 <= j < i ==> s[j].country != c
  {
    if i == 0 then None
    else if s[i - 1].country == c then Some(i - 1)
    else PrevOfCountry(s, c, i - 1)
  }

  const NoLags: seq<Cell> := [None, None, None, None, None, None]

  /** The lag cells `shift(1)` within the country group gives row `i`: the indicators of the group's previous row. */
  function Lags(s: seq<Observation>, i: nat): (lags: seq<Cell>)
    requires WellFormed(s) && i < |s|
    ensures |lags| == IndicatorCount
    ensures PrevOfCountry(s, s[i].country, i).None? ==> forall k :: 0 <= k < IndicatorCount ==> lags[k].None?
    ensures PrevOfCountry(s, s[i].country, i).Some? ==>
      lags == s[PrevOfCountry(s, s[i].country, i).value].indicators
  {
    match PrevOfCountry(s, s[i].country, i)
    case None => NoLags
    case Some(j) => s[j].indicators
  }

  /** The table after the lag columns are added. */
  function Shift(s: seq<Observation>): (t: seq<Shifted>)
    requires WellFormed(s)
    ensures |t| == |s|
  {
    seq(|s|, i requires 0 <= i < |s| => Shifted(s[i], Lags(s, i)))
  }

  /** The result of `create_lagged_features`. */
  function LaggedFeatures(df: seq<Observation>): (out: seq<Shifted>)
    requires WellFormed(df)
    ensures |out| <= |df|
  {
    var sorted := SortByCountryYear(df);
    assert WellFormed(sorted) by {
      forall i | 0 <= i < |sorted| ensures |sorted[i].indicators| == IndicatorCount {
        assert sorted[i] in multiset(df);
      }
    }
    Filter(Complete, Shift(sorted))
  }

  /** Sorting keeps every row and its width. */
  lemma SortedWellFormed(df: seq<Observation>)
    requires WellFormed(df)
    ensures WellFormed(SortByCountryYear(df))
    ensures forall o :: o in SortByCountryYear(df) <==> o in df
  {
    var sorted := SortByCountryYear(df);
    forall o ensures o in sorted <==> o in df {
      assert o in sorted <==> o in multiset(sorted);
    }
    forall i | 0 <= i < |sorted| ensures |sorted[i].indicators| == IndicatorCount {
      assert sorted[i] in multiset(df);
    }
  }

  /**
   * `create_lagged_features` as written: after sorting, the loop adds one
   * lag column per indicator to every row, then `dropna` filters.
   */
  method CreateLaggedFeatures(df: seq<Observation>) returns (out: seq<Shifted>)
    requires WellFormed(df)
    ensures out == LaggedFeatures(df)
  {
    var sorted := SortByCountryYear(df);
    SortedWellFormed(df);
    var table: seq<Shifted> := seq(|sorted|, i requires 0 <= i < |sorted| => Shifted(sorted[i], []));
    for k := 0 to IndicatorCount
      invariant |table| == |sorted|
      invariant forall i :: 0 <= i < |table| ==> table[i].obs == sorted[i]
      invariant forall i :: 0 <= i < |table| ==> table[i].lags == Lags(sorted, i)[..k]
    {
      var column := ShiftColumn(sorted, k);
      PrefixSnoc(sorted, k);
      table := AddColumn(table, column);
    }
    assert table == Shift(sorted) by {
      forall i | 0 <= i < |table| ensures table[i] == Shift(sorted)[i] {
        assert Lags(sorted, i)[..IndicatorCount] == Lags(sorted, i);
      }
    }
    out := Filter(Complete, table);
  }

  /** Column `k` of `df.groupby('Country')[feature].shift(1)`. */
  function ShiftColumn(s: seq<Observation>, k: nat): (column: seq<Cell>)
    requires WellFormed(s) && k < IndicatorCount
    ensures |column| == |s|
    ensures forall i :: 0 <= i < |s| ==> column[i] == Lags(s, i)[k]
  {
    seq(|s|, i requires 0 <= i < |s| =>
      match PrevOfCountry(s, s[i].country, i)
      case None => None
      case Some(j) => s[j].indicators[k])
  }

  /** `df[name] = column`: every row gains one cell at the end of its lag columns. */
  function AddColumn(t: seq<Shifted>, column: seq<Cell>): (r: seq<Shifted>)
    requires |column| == |t|
    ensures |r| == |t|
    ensures forall i :: 0 <= i < |t| ==> r[i].obs == t[i].obs && r[i].lags == t[i].lags + [column[i]]
  {
    seq(|t|, i requires 0 <= i < |t| => Shifted(t[i].obs, t[i].lags + [column[i]]))
  }

  lemma PrefixSnoc(s: seq<Observation>, k: nat)
    requires WellFormed(s) && k < IndicatorCount
    ensures forall i :: 0 <= i < |s| ==> Lags(s, i)[..k + 1] == Lags(s, i)[..k] + [Lags(s, i)[k]]
  {
    forall i | 0 <= i < |s| ensures Lags(s, i)[..k + 1] == Lags(s, i)[..k] + [Lags(s, i)[k]] {
      var l := Lags(s, i);
      assert l[..k + 1] == l[..k] + [l[k]];
    }
  }

  /** The row `i` opens its country's block: it is the first row, or the row before belongs to another country. */
  predicate StartsGroup(s: seq<Observation>, i: nat)
    requires i < |s|
  {
    i == 0 || s[i - 1].country != s[i].country
  }

  /**
   * On a table sorted by (Country, Year) the previous row of the same
   * country is the immediately preceding row, and a row that opens its
   * block has none: the shift never reads across a country boundary.
   */
  lemma {:induction false} PrevIsAdjacent(s: seq<Observation>, i: nat)
    requires SortedBy(s, CountryYearLe) && i < |s|
    ensures StartsGroup(s, i) ==> PrevOfCountry(s, s[i].country, i).None?
    ensures !StartsGroup(s, i) ==> PrevOfCountry(s, s[i].country, i) == Some(i - 1)
  {
    if i > 0 && s[i - 1].country != s[i].country {
      var c := s[i].country;
      assert Less(s[i - 1].country, c);
      forall j | 0 <= j < i ensures s[j].country != c {
        if j < i - 1 {
          assert CountryYearLe(s[j], s[i - 1]);
          if Less(s[j].country, s[i - 1].country) {
            LessTransitive(s[j].country, s[i - 1].country, c);
          }
        }
        LessIrreflexive(c);
      }
    }
  }

  /**
   * Where each output row comes from: position `ix[j]` of the sorted table,
   * which is not the first row of its country; its lag cells are exactly
   * the indicators of the row just before it, of the same country; and
   * positions increase, so the output is a subsequence of the sorted table.
   * Conversely every sorted row with a same-country predecessor whose cells
   * are all present is kept.
   */
  lemma LaggedOrigin(df: seq<Observation>) returns (ix: seq<nat>)
    requires WellFormed(df)
    ensures |ix| == |LaggedFeatures(df)|
    ensures forall j, k :: 0 <= j < k < |ix| ==> ix[j] < ix[k]
    ensures var sorted := SortByCountryYear(df); var out := LaggedFeatures(df);
      forall j :: 0 <= j < |ix| ==>
        0 < ix[j] < |sorted| && out[j].obs == sorted[ix[j]]
        && sorted[ix[j] - 1].country == sorted[ix[j]].country
        && out[j].lags == sorted[ix[j] - 1].indicators
        && Complete(out[j])
    ensures var sorted := SortByCountryYear(df);
      forall g :: 0 < g < |sorted| && sorted[g - 1].country == sorted[g].country
        && Complete(Shifted(sorted[g], sorted[g - 1].indicators))
        ==> g in ix
  {
    var sorted := SortByCountryYear(df);
    SortedWellFormed(df);
    var shifted := Shift(sorted);
    var out := LaggedFeatures(df);
    assert out == Filter(Complete, shifted);
    ix := FilterIndices(Complete, shifted);
    FilterMembers(Complete, shifted);
    forall j | 0 <= j < |ix|
      ensures 0 < ix[j] < |sorted| && out[j].obs == sorted[ix[j]]
        && sorted[ix[j] - 1].country == sorted[ix[j]].country
        && out[j].lags == sorted[ix[j] - 1].indicators
        && Complete(out[j])
    {
      var g := ix[j];
      assert out[j] == shifted[g];
      assert out[j] in out;
      ShiftedRow(sorted, g);
    }
    forall g | 0 < g < |sorted| && sorted[g - 1].country == sorted[g].country
      && Complete(Shifted(sorted[g], sorted[g - 1].indicators))
      ensures g in ix
    {
      ShiftedRow(sorted, g);
    }
  }

  /** Row `g` after the shift: no lag cell at the start of a block, the previous row's indicators inside one. */
  lemma ShiftedRow(s: seq<Observation>, g: nat)
    requires WellFormed(s) && SortedBy(s, CountryYearLe) && g < |s|
    ensures Shift(s)[g].obs == s[g]
    ensures StartsGroup(s, g) ==> !AllPresent(Shift(s)[g].lags)
    ensures !StartsGroup(s, g) ==> Shift(s)[g].lags == s[g - 1].indicators
  {
    PrevIsAdjacent(s, g);
    assert NoLags[0].None?;
  }

  /** The output is still ordered by (Country, Year). */
  lemma LaggedSorted(df: seq<Observation>)
    requires WellFormed(df)
    ensures var out := LaggedFeatures(df);
      forall a, b :: 0 <= a < b < |out| ==> CountryYearLe(out[a].obs, out[b].obs)
  {
    var sorted := SortByCountryYear(df);
    var out := LaggedFeatures(df);
    var ix := LaggedOrigin(df);
    forall a, b | 0 <= a < b < |out| ensures CountryYearLe(out[a].obs, out[b].obs) {
      assert ix[a] < ix[b];
      assert out[a].obs == sorted[ix[a]] && out[b].obs == sorted[ix[b]];
    }
  }

  /** Every output row is a row of the input with its original columns unchanged. */
  lemma LaggedRowsFromInput(df: seq<Observation>)
    requires WellFormed(df)
    ensures forall r :: r in LaggedFeatures(df) ==> r.obs in df && Complete(r)
  {
    var sorted := SortByCountryYear(df);
    SortedWellFormed(df);
    var ix := LaggedOrigin(df);
    var out := LaggedFeatures(df);
    forall r | r in out ensures r.obs in df && Complete(r) {
      var j :| 0 <= j < |out| && out[j] == r;
      assert sorted[ix[j]] in sorted;
    }
  }

  /** The number of rows of country `c`. */
  function CountryCount(df: seq<Observation>, c: string): (n: nat)
    ensures n <= |df|
  {
    |Filter((o: Observation) => o.country == c, df)|
  }

  /** Sorting does not change how many rows pass a filter. */
  lemma FilterSorted(p: Observation -> bool, df: seq<Observation>)
    ensures |Filter(p, SortByCountryYear(df))| == |Filter(p, df)|
  {
    var sorted := SortByCountryYear(df);
    forall o ensures multiset(Filter(p, sorted))[o] == multiset(Filter(p, df))[o] {
      FilterMultiplicity(p, sorted, o);
      FilterMultiplicity(p, df, o);
    }
    assert multiset(Filter(p, sorted)) == multiset(Filter(p, df));
    assert |multiset(Filter(p, sorted))| == |multiset(Filter(p, df))|;
  }

  /** A country that has at most one row contributes nothing: that row has no previous row to lag from. */
  lemma SingleRowCountryDropped(df: seq<Observation>, c: string)
    requires WellFormed(df) && CountryCount(df, c) <= 1
    ensures forall r :: r in LaggedFeatures(df) ==> r.obs.country != c
  {
    var sorted := SortByCountryYear(df);
    var out := LaggedFeatures(df);
    var ix := LaggedOrigin(df);
    var ofC := (o: Observation) => o.country == c;
    FilterSorted(ofC, df);
    forall r | r in out ensures r.obs.country != c {
      var j :| 0 <= j < |out| && out[j] == r;
      NoSecondRow(sorted, ofC, ix[j]);
    }
  }

  /** With at most one row passing `p`, no two adjacent rows both pass it. */
  lemma NoSecondRow(s: seq<Observation>, p: Observation -> bool, g: nat)
    requires |Filter(p, s)| <= 1 && 0 < g < |s|
    ensures !(p(s[g - 1]) && p(s[g]))
  {
    var ix := FilterIndices(p, s);
    NotTwoIn(ix, g - 1, g);
  }

  lemma NotTwoIn(ix: seq<nat>, a: nat, b: nat)
    requires |ix| <= 1 && a != b
    ensures !(a in ix && b in ix)
  {
  }

  /** The countries of a table. */
  function Countries(s: seq<Observation>): set<string>
  {
    if |s| == 0 then {} else Countries(s[..|s| - 1]) + {s[|s| - 1].country}
  }

  /** A country belongs to the table's countries exactly when some row names it. */
  lemma {:induction false} CountriesMembers(s: seq<Observation>)
    ensures forall c :: c in Countries(s) <==> exists o :: o in s && o.country == c
  {
    if |s| > 0 {
      var init := s[..|s| - 1];
      CountriesMembers(init);
      assert s == init + [s[|s| - 1]];
      assert forall o :: o in s <==> o in init || o == s[|s| - 1];
    }
  }

  /** The number of country blocks among the first `n` rows. */
  function GroupStarts(s: seq<Observation>, n: nat): (count: nat)
    requires n <= |s|
    ensures count <= n
  {
    if n == 0 then 0 else GroupStarts(s, n - 1) + if StartsGroup(s, n - 1) then 1 else 0
  }

  /** A row opens a block exactly when no earlier row has its country. */
  ghost predicate BlocksByCountry(s: seq<Observation>) {
    forall i {:trigger StartsGroup(s, i)} :: 0 <= i < |s| ==> (StartsGroup(s, i) <==> s[i].country !in Countries(s[..i]))
  }

  /** On a sorted table each country forms one block, so the blocks count the countries. */
  lemma GroupStartsCountCountries(s: seq<Observation>, n: nat)
    requires SortedBy(s, CountryYearLe) && n <= |s|
    ensures GroupStarts(s, n) == |Countries(s[..n])|
  {
    forall i | 0 <= i < |s| ensures StartsGroup(s, i) <==> s[i].country !in Countries(s[..i]) {
      BlockStart(s, i);
    }
    CountBlocks(s, n);
  }

  lemma {:induction false} CountBlocks(s: seq<Observation>, n: nat)
    requires BlocksByCountry(s) && n <= |s|
    ensures GroupStarts(s, n) == |Countries(s[..n])|
  {
    if n == 0 {
      assert Countries(s[..0]) == {};
    } else {
      CountBlocks(s, n - 1);
      CountStep(s, n);
    }
  }

  lemma CountStep(s: seq<Observation>, n: nat)
    requires 0 < n <= |s|
    requires StartsGroup(s, n - 1) <==> s[n - 1].country !in Countries(s[..n - 1])
    ensures GroupStarts(s, n) - GroupStarts(s, n - 1) == |Countries(s[..n])| - |Countries(s[..n - 1])|
  {
    CountriesSnoc(s, n);
    AddCount(Countries(s[..n - 1]), s[n - 1].country);
  }

  /** On a sorted table a row opens its block exactly when its country is new. */
  lemma BlockStart(s: seq<Observation>, i: nat)
    requires SortedBy(s, CountryYearLe) && i < |s|
    ensures StartsGroup(s, i) <==> s[i].country !in Countries(s[..i])
  {
    PrevIsAdjacent(s, i);
    if StartsGroup(s, i) {
      NewCountry(s, i);
    } else {
      OldCountry(s, i + 1);
    }
  }

  /** A row continuing its block names a country an earlier row already has. */
  lemma OldCountry(s: seq<Observation>, n: nat)
    requires 1 < n <= |s| && s[n - 2].country == s[n - 1].country
    ensures s[n - 1].country in Countries(s[..n - 1])
  {
    assert s[n - 2] in s[..n - 1];
    CountriesMembers(s[..n - 1]);
  }

  lemma AddCount(before: set<string>, c: string)
    ensures |before + {c}| == |before| + if c in before then 0 else 1
  {
    if c in before {
      assert before + {c} == before;
    }
  }

  lemma CountriesSnoc(s: seq<Observation>, n: nat)
    requires 0 < n <= |s|
    ensures Countries(s[..n]) == Countries(s[..n - 1]) + {s[n - 1].country}
  {
    assert s[..n][..n - 1] == s[..n - 1];
  }

  /** A row that opens its block names a country no earlier row has. */
  lemma NewCountry(s: seq<Observation>, i: nat)
    requires i < |s| && PrevOfCountry(s, s[i].country, i).None?
    ensures s[i].country !in Countries(s[..i])
  {
    forall o | o in s[..i] ensures o.country != s[i].country {
      var j :| 0 <= j < i && s[..i][j] == o;
    }
    CountriesMembers(s[..i]);
  }

  /** Counting what `dropna` keeps from the first `n` rows when only the lags can be missing. */
  lemma {:induction false} KeptCount(s: seq<Observation>, n: nat)
    requires WellFormed(s) && SortedBy(s, CountryYearLe) && n <= |s|
    requires forall i :: 0 <= i < |s| ==> RowComplete(s[i])
    ensures |Filter(Complete, Shift(s)[..n])| == n - GroupStarts(s, n)
  {
    if n > 0 {
      KeptCount(s, n - 1);
      var t := Shift(s)[..n];
      assert t[..n - 1] == Shift(s)[..n - 1];
      ShiftedRow(s, n - 1);
      assert Complete(t[n - 1]) <==> !StartsGroup(s, n - 1);
    }
  }

  /**
   * With no missing value in the loaded table, `dropna` removes exactly the
   * first row of each country: the output has one row fewer per country.
   */
  lemma LaggedCount(df: seq<Observation>)
    requires WellFormed(df)
    requires forall i :: 0 <= i < |df| ==> RowComplete(df[i])
    ensures |LaggedFeatures(df)| == |df| - |Countries(df)|
  {
    var sorted := SortByCountryYear(df);
    SortedWellFormed(df);
    assert |sorted| == |df| by {
      assert |multiset(sorted)| == |multiset(df)|;
    }
    forall i | 0 <= i < |sorted| ensures RowComplete(sorted[i]) {
      assert sorted[i] in df;
    }
    KeptCount(sorted, |sorted|);
    assert Shift(sorted)[..|sorted|] == Shift(sorted);
    GroupStartsCountCountries(sorted, |sorted|);
    assert sorted[..|sorted|] == sorted;
    CountriesMembers(sorted);
    CountriesMembers(df);
    assert forall o :: o in sorted <==> o in df by {
      assert forall o :: o in sorted <==> o in multiset(sorted);
    }
    assert Countries(sorted) == Countries(df);
  }
}
