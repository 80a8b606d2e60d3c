/** The dashboard's read-only views of the ledger: the filtered stock list,
    the period summary of the records behind it, and the month options of
    the date filter. */
module Query {
  import opened Text
  import opened Seqs
  import opened Inventory

  datatype FilterKind = ByLocation | ByCategory | ByDate

  /** The parts of the screen state the dashboard list depends on; "all"
      is the selection that filters nothing. */
  datatype Filters = Filters(searchTerm: string, filtersOn: bool, active: FilterKind,
                             selectedLocation: string, selectedCategory: string, selectedDate: string)

  /** The search box: an empty term matches everything, otherwise the term
      must occur in the item's name or location, ignoring letter case. */
  predicate MatchesSearch(term: string, item: StockItem) {
    var t := Fold(term);
    t == [] || Includes(Fold(item.name), t) || Includes(Fold(item.location), t)
  }

  /** The active filter's selection, when filters are on and it is not "all". */
  predicate PassesSelection(f: Filters, item: StockItem) {
    if !f.filtersOn then true
    else match f.active
      case ByLocation => f.selectedLocation == "all" || item.location == f.selectedLocation
      case ByCategory => f.selectedCategory == "all" || item.category == f.selectedCategory
      case ByDate => f.selectedDate == "all" || StartsWith(item.lastUpdated, f.selectedDate)
  }

  predicate Visible(f: Filters, item: StockItem) {
    MatchesSearch(f.searchTerm, item) && PassesSelection(f, item)
  }

  /** `getFilteredStockItems`. */
  function FilteredItems(items: seq<StockItem>, f: Filters): seq<StockItem> {
    Filter(items, (item: StockItem) => Visible(f, item))
  }

  /** The list shows exactly the visible items, in stock-list order. */
  lemma FilteredItemsSound(items: seq<StockItem>, f: Filters)
    ensures var r := FilteredItems(items, f);
      && SubsequenceOf(r, items)
      && (forall i :: 0 <= i < |r| ==> MatchesSearch(f.searchTerm, r[i]) && PassesSelection(f, r[i]))
      && (forall i :: 0 <= i < |items| && Visible(f, items[i]) ==> items[i] in r)
  {
    FilterIsSubsequence(items, (item: StockItem) => Visible(f, item));
  }

  /** With filters off, or with "all" selected for the active filter, only
      the search term decides. */
  lemma OnlySearchApplies(items: seq<StockItem>, f: Filters)
    requires !f.filtersOn
      || (f.active == ByLocation && f.selectedLocation == "all")
      || (f.active == ByCategory && f.selectedCategory == "all")
      || (f.active == ByDate && f.selectedDate == "all")
    ensures FilteredItems(items, f) == Filter(items, (item: StockItem) => MatchesSearch(f.searchTerm, item))
  {
    FilterAgree(items, (item: StockItem) => Visible(f, item), (item: StockItem) => MatchesSearch(f.searchTerm, item));
  }

  /** With no search term and no active selection every item is listed. */
  lemma NothingFiltersKeepsAll(items: seq<StockItem>, f: Filters)
    requires f.searchTerm == [] && !f.filtersOn
    ensures FilteredItems(items, f) == items
  {
    FilterKeepsAll(items, (item: StockItem) => Visible(f, item));
  }

  /** A location selection keeps just the matching items at that location. */
  lemma LocationSelection(items: seq<StockItem>, f: Filters)
    requires f.filtersOn && f.active == ByLocation && f.selectedLocation != "all"
    ensures var r := FilteredItems(items, f);
      && (forall i :: 0 <= i < |r| ==> r[i].location == f.selectedLocation)
      && (forall i :: 0 <= i < |items| && items[i].location == f.selectedLocation && MatchesSearch(f.searchTerm, items[i]) ==> items[i] in r)
  {
  }

  // ----- the period summary -----

  /** The four figures of the summary card. */
  datatype Summary = Summary(entradasTotal: int, entradasCount: nat, saidasTotal: int, saidasCount: nat)

  function ItemNames(items: seq<StockItem>): (r: seq<string>)
    ensures |r| == |items| && forall i :: 0 <= i < |r| ==> r[i] == items[i].name
  {
    seq(|items|, i requires 0 <= i < |items| => items[i].name)
  }

  /** The summary of `renderDashboardCard`: totals and counts of the records
      whose item name is one of the listed items' names. */
  function PeriodSummary(s: State, f: Filters): Summary {
    var names := ItemNames(FilteredItems(s.items, f));
    var entradas := Filter(s.entradas, (e: Entrada) => e.itemName in names);
    var saidas := Filter(s.saidas, (x: Saida) => x.itemName in names);
    Summary(SumOf(entradas, EntradaQuantity), |entradas|, SumOf(saidas, SaidaQuantity), |saidas|)
  }

  /** A record counts when a visible item carries exactly its item name. */
  predicate Listed(visible: seq<StockItem>, itemName: string) {
    exists i :: 0 <= i < |visible| && visible[i].name == itemName
  }

  /** The summary totals are the sums of the quantities of the records of
      listed items, and the counts are how many such records there are. */
  lemma PeriodSummaryCounts(s: State, f: Filters)
    ensures var v := FilteredItems(s.items, f); var r := PeriodSummary(s, f);
      && r.entradasTotal == SumWhere(s.entradas, (e: Entrada) => Listed(v, e.itemName), EntradaQuantity)
      && r.entradasCount == CountWhere(s.entradas, (e: Entrada) => Listed(v, e.itemName))
      && r.saidasTotal == SumWhere(s.saidas, (x: Saida) => Listed(v, x.itemName), SaidaQuantity)
      && r.saidasCount == CountWhere(s.saidas, (x: Saida) => Listed(v, x.itemName))
  {
    var v := FilteredItems(s.items, f);
    var names := ItemNames(v);
    var inNames := (e: Entrada) => e.itemName in names;
    var listed := (e: Entrada) => Listed(v, e.itemName);
    FilterAgree(s.entradas, inNames, listed);
    SumOfFilter(s.entradas, listed, EntradaQuantity);
    var inNamesOut := (x: Saida) => x.itemName in names;
    var listedOut := (x: Saida) => Listed(v, x.itemName);
    FilterAgree(s.saidas, inNamesOut, listedOut);
    SumOfFilter(s.saidas, listedOut, SaidaQuantity);
  }

  /** Every recorded quantity is at least 1, so each total is at least its
      count, and no count exceeds the number of records. */
  lemma PeriodSummaryBounds(s: State, f: Filters)
    requires Valid(s)
    ensures var r := PeriodSummary(s, f);
      && r.entradasCount <= r.entradasTotal && r.entradasCount <= |s.entradas|
      && r.saidasCount <= r.saidasTotal && r.saidasCount <= |s.saidas|
  {
    PeriodSummaryCounts(s, f);
    var v := FilteredItems(s.items, f);
    SumWhereAtLeastCount(s.entradas, (e: Entrada) => Listed(v, e.itemName), EntradaQuantity);
    SumWhereAtLeastCount(s.saidas, (x: Saida) => Listed(v, x.itemName), SaidaQuantity);
  }

  // ----- the month options of the date filter -----

  /** The year-month prefix of every item's `lastUpdated`. */
  function MonthPrefixes(items: seq<StockItem>): (r: seq<string>)
    ensures |r| == |items| && forall i :: 0 <= i < |r| ==> r[i] == Prefix(items[i].lastUpdated, 7)
  {
    seq(|items|, i requires 0 <= i < |items| => Prefix(items[i].lastUpdated, 7))
  }

  /** The distinct months no item spells "all", latest first. */
  function DescendingMonths(items: seq<StockItem>): seq<string> {
    Reverse(SortBy(Filter(Dedup(MonthPrefixes(items)), (m: string) => m != "all"), Self))
  }

  /** `renderDateFilter`'s list: "all" first (again for a month spelled
      "all", which the comparator also puts first), then the other months. */
  function MonthOptions(items: seq<StockItem>): seq<string> {
    ["all"] + Filter(Dedup(MonthPrefixes(items)), (m: string) => m == "all") + DescendingMonths(items)
  }

  /** The list opens with "all" and ends with the months. */
  lemma MonthOptionsShape(items: seq<StockItem>)
    ensures var r := MonthOptions(items); var d := DescendingMonths(items);
      && |d| < |r| && r[0] == "all" && r[|r| - |d|..] == d
      && (forall i :: 0 <= i < |r| - |d| ==> r[i] == "all")
  {
    var alls := Filter(Dedup(MonthPrefixes(items)), (m: string) => m == "all");
    var r := MonthOptions(items);
    forall i | 0 < i < 1 + |alls| ensures r[i] == "all" {
      assert r[i] == alls[i - 1];
    }
  }

  /** The months are listed strictly latest first, each once. */
  lemma DescendingMonthsOrdered(items: seq<StockItem>)
    ensures var d := DescendingMonths(items);
      forall i, j :: 0 <= i < j < |d| ==> LexLe(d[j], d[i]) && d[i] != d[j]
  {
    var months := Dedup(MonthPrefixes(items));
    var dated := Filter(months, (m: string) => m != "all");
    var sorted := SortBy(dated, Self);
    SortByCorrect(dated, Self);
    assert DistinctKeys(months, Self);
    FilterKeepsDistinctKeys(months, (m: string) => m != "all", Self);
    PermutationKeepsDistinctKeys(dated, sorted, Self);
    ReverseOfSorted(sorted, Self);
  }

  /** The months offered are exactly the year-month prefixes of the items'
      `lastUpdated`, other than "all". */
  lemma DescendingMonthsMembers(items: seq<StockItem>, m: string)
    ensures m in DescendingMonths(items) <==> m != "all" && exists i :: 0 <= i < |items| && Prefix(items[i].lastUpdated, 7) == m
  {
    var prefixes := MonthPrefixes(items);
    var months := Dedup(prefixes);
    var dated := Filter(months, (x: string) => x != "all");
    var sorted := SortBy(dated, Self);
    SortByCorrect(dated, Self);
    ReverseMembers(sorted, m);
    assert m in sorted <==> m in dated by {
      assert m in sorted <==> m in multiset(sorted);
      assert m in dated <==> m in multiset(dated);
    }
    FilterMembers(months, (x: string) => x != "all", m);
    DedupMembers(prefixes, m);
    if m in prefixes {
      var i :| 0 <= i < |prefixes| && prefixes[i] == m;
      assert Prefix(items[i].lastUpdated, 7) == m;
    }
  }
}
