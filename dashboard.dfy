/**
 The filter-and-aggregate pipeline of the sales dashboard (main.py): the
 category options of the chosen company, the selected rows, the three KPIs,
 the (category, price) frequency table, the market share per company and
 category, and the per-week volume and revenue tables, for the selected
 company and across companies.
 */
module Dashboard {
  import opened Rows
  import opened Grouping

  datatype Option<T> = None | Some(value: T)

  // ---------------------------------------------------------------------------
  // Category options and row selection

  /** Row condition "belongs to `company`". */
  function OfCompany(company: string): Row -> bool
  {
    (r: Row) => r.company == company
  }

  /** Row condition "its category is one of `category`" (pandas `isin`). */
  function InCategories(category: seq<string>): Row -> bool
  {
    (r: Row) => r.cat in category
  }

  /** Row condition of the dashboard query "company == @company & cat in @category". */
  function Selected(company: string, category: seq<string>): Row -> bool
  {
    (r: Row) => r.company == company && r.cat in category
  }

  /** The rows of one company, in table order. */
  function CompanyRows(data: Table, company: string): (rows: Table)
    ensures forall r :: r in rows <==> r in data && r.company == company
    ensures IsSubsequence(rows, data)
  {
    Where(data, OfCompany(company))
  }

  /** Each row of the company is kept as often as it occurs in `data`. */
  lemma CompanyRowsCounts(data: Table, company: string, r: Row)
    ensures multiset(CompanyRows(data, company))[r] == if r.company == company then multiset(data)[r] else 0
  {
    WhereCount(data, OfCompany(company), r);
  }

  /** The categories offered for `company`: distinct, and exactly the categories
      of that company's rows. */
  function CategoryOptions(data: Table, company: string): (opts: seq<string>)
    ensures NoDuplicates(opts)
    ensures forall c :: c in opts <==> exists r :: r in data && r.company == company && r.cat == c
  {
    var rows := CompanyRows(data, company);
    var cats := Cats(rows);
    assert forall c :: c in cats <==> exists r :: r in rows && r.cat == c by {
      forall c | c in cats ensures exists r :: r in rows && r.cat == c {
        var i :| 0 <= i < |cats| && cats[i] == c;
        assert rows[i] in rows;
      }
      forall r | r in rows ensures r.cat in cats {
        var i :| 0 <= i < |rows| && rows[i] == r;
        assert cats[i] == r.cat;
      }
    }
    Unique(cats)
  }

  /** The selected rows: exactly the rows of `data` of `company` whose category is
      chosen, in their original order. */
  function Selection(data: Table, company: string, category: seq<string>): (sel: Table)
    ensures forall r :: r in sel <==> r in data && r.company == company && r.cat in category
    ensures IsSubsequence(sel, data)
  {
    Where(data, Selected(company, category))
  }

  /** Each selected row is kept as often as it occurs in `data`; no other row is kept. */
  lemma SelectionCounts(data: Table, company: string, category: seq<string>, r: Row)
    ensures multiset(Selection(data, company, category))[r] ==
              if r.company == company && r.cat in category then multiset(data)[r] else 0
  {
    WhereCount(data, Selected(company, category), r);
  }

  /** Only the set of chosen categories matters, not their order or repetitions. */
  lemma SelectionDependsOnChosenSet(data: Table, company: string, a: seq<string>, b: seq<string>)
    requires forall c :: c in a <==> c in b
    ensures Selection(data, company, a) == Selection(data, company, b)
  {
    WhereCongruent(data, Selected(company, a), Selected(company, b));
  }

  /** "Select all" chooses every category option, and then the selection is every
      row of the company. */
  lemma SelectAllSelectsCompanyRows(data: Table, company: string)
    ensures Selection(data, company, CategoryOptions(data, company)) == CompanyRows(data, company)
  {
    var opts := CategoryOptions(data, company);
    forall r | r in data ensures Selected(company, opts)(r) == OfCompany(company)(r) {
      if r.company == company {
        assert r.cat in opts;
      }
    }
    WhereCongruent(data, Selected(company, opts), OfCompany(company));
  }

  // ---------------------------------------------------------------------------
  // KPIs

  /** Total revenue, average revenue (None where pandas yields NaN) and volume. */
  datatype Kpis = Kpis(totalRevenue: int, averageRevenue: Option<real>, totalVolume: nat)

  /** The KPIs of the selected rows. */
  function Summary(sel: Table): (k: Kpis)
    ensures k.averageRevenue.Some? <==> |sel| > 0
    ensures k.averageRevenue.Some? ==> k.averageRevenue.value * (|sel| as real) == k.totalRevenue as real
  {
    var revenue := SumVal(sel, Price);
    Kpis(revenue, if |sel| == 0 then None else Some(revenue as real / |sel| as real), |sel|)
  }

  /** No chosen category: nothing is selected, revenue and volume are 0 and there is
      no average. */
  lemma EmptySelection(data: Table, company: string)
    ensures Selection(data, company, []) == []
    ensures Summary(Selection(data, company, [])) == Kpis(0, None, 0)
  {
  }

  /** Total revenue and volume count and sum exactly the selected rows, and the
      average lies between the lowest and the highest selected price. */
  lemma SummaryOfSelection(sel: Table, lo: int, hi: int)
    requires forall r :: r in sel ==> lo <= r.price <= hi
    ensures Summary(sel).totalVolume == |sel|
    ensures Summary(sel).totalRevenue == SumVal(sel, Price)
    ensures |sel| * lo <= Summary(sel).totalRevenue <= |sel| * hi
    ensures Summary(sel).averageRevenue.Some? ==>
              lo as real <= Summary(sel).averageRevenue.value <= hi as real
  {
    SumValBounds(sel, Price, lo, hi);
    if |sel| > 0 {
      QuotientBounds(SumVal(sel, Price), |sel|, lo, hi);
    }
  }

  /** A quotient by a positive count keeps the bounds of its scaled dividend. */
  lemma QuotientBounds(s: int, n: int, lo: int, hi: int)
    requires n > 0 && n * lo <= s <= n * hi
    ensures lo as real <= (s as real) / (n as real) <= hi as real
  {
    var q, m := (s as real) / (n as real), n as real;
    assert q * m == s as real;
    assert (n * lo) as real == m * (lo as real);
    assert (n * hi) as real == m * (hi as real);
  }

  // ---------------------------------------------------------------------------
  // Category/price frequency (value_counts over (cat, price))

  function CatPrice(r: Row): (string, int) { (r.cat, r.price) }

  /** How many selected rows share each (category, price) pair. */
  function CategoryVolume(sel: Table): (g: seq<Entry<(string, int)>>)
    ensures DistinctKeys(g)
    ensures forall k :: Lookup(g, k) == KeySum(sel, CatPrice, One, k)
  {
    Group(sel, CatPrice, One)
  }

  /** One entry per (category, price) pair that occurs, with the number of rows
      carrying it; every count is at least 1 and the counts add up to the volume. */
  lemma CategoryVolumeCounts(sel: Table)
    ensures DistinctKeys(CategoryVolume(sel))
    ensures KeySet(CategoryVolume(sel)) == set r | r in sel :: (r.cat, r.price)
    ensures forall k :: Lookup(CategoryVolume(sel), k) == KeySum(sel, CatPrice, One, k)
    ensures forall e :: e in CategoryVolume(sel) ==> e.agg >= 1
    ensures Total(CategoryVolume(sel)) == Summary(sel).totalVolume
  {
    CountTable(sel, CatPrice);
    KeysOfRows(sel, CatPrice);
  }

  /** The keys of a grouped table of rows, written over the rows themselves. */
  lemma KeysOfRows<K>(rows: Table, key: Row -> K)
    ensures KeysOf(rows, key) == set r | r in rows :: key(r)
  {
    forall k | k in (set r | r in rows :: key(r)) ensures k in KeysOf(rows, key) {
      var r :| r in rows && key(r) == k;
      var i :| 0 <= i < |rows| && rows[i] == r;
      assert key(rows[i]) == k;
    }
  }

  // ---------------------------------------------------------------------------
  // Market share

  /** One market-share row: a company, a category, the company's price sum in it
      and its share of the category's total (None where pandas yields NaN or an
      infinity, the category total being 0). */
  datatype Share = Share(company: string, cat: string, price: int, percentage: Option<real>)

  function CompanyCat(r: Row): (string, string) { (r.company, r.cat) }
  function CatOf(r: Row): string { r.cat }

  /** Entry condition "its category is one of `category`". */
  function EntryInCategories(category: seq<string>): Entry<(string, string)> -> bool
  {
    (e: Entry<(string, string)>) => e.key.1 in category
  }

  /** The category total of a (company, category) table: the sum over all its
      companies (`groupby('cat')['price'].transform('sum')`). */
  function CatTotal(g: seq<Entry<(string, string)>>, cat: string): int
  {
    if g == [] then 0 else (if g[0].key.1 == cat then g[0].agg else 0) + CatTotal(g[1..], cat)
  }

  /** Reference definition: the price total of one category across every company
      of the full table. */
  function CategoryTotal(data: Table, cat: string): int
  {
    KeySum(data, CatOf, Price, cat)
  }

  /** `100 * part / whole` as a real number. */
  function Percentage(part: int, whole: int): real
    requires whole != 0
  {
    100.0 * (part as real) / (whole as real)
  }

  /** The market-share percentage of `part` in `whole`; None for a zero whole,
      where pandas yields NaN or an infinity. */
  function Percent(part: int, whole: int): (p: Option<real>)
    ensures p.Some? <==> whole != 0
  {
    if whole == 0 then None else Some(Percentage(part, whole))
  }

  /** Percentages of one whole add up like their parts. */
  lemma PercentageAdd(a: int, b: int, whole: int)
    requires whole != 0
    ensures Percentage(a, whole) + Percentage(b, whole) == Percentage(a + b, whole)
  {
    var w := whole as real;
    assert (a + b) as real == a as real + b as real;
    assert 100.0 * (a as real) / w + 100.0 * (b as real) / w == (100.0 * (a as real) + 100.0 * (b as real)) / w;
  }

  /** The whole is 100 percent of itself, and nothing is 0 percent. */
  lemma PercentageBounds(whole: int)
    requires whole != 0
    ensures Percentage(whole, whole) == 100.0 && Percentage(0, whole) == 0.0
  {
  }

  /** The market-share rows of the entries `es`, each expressed against its
      category's total in `all`. */
  function Shares(es: seq<Entry<(string, string)>>, all: seq<Entry<(string, string)>>): (r: seq<Share>)
    ensures |r| == |es|
  {
    if es == [] then []
    else
      var e := es[0];
      [Share(e.key.0, e.key.1, e.agg, Percent(e.agg, CatTotal(all, e.key.1)))] + Shares(es[1..], all)
  }

  /** The `i`-th market-share row describes the `i`-th entry. */
  lemma {:induction false} SharesAt(es: seq<Entry<(string, string)>>, all: seq<Entry<(string, string)>>, i: nat)
    requires i < |es|
    ensures Shares(es, all)[i] ==
            Share(es[i].key.0, es[i].key.1, es[i].agg, Percent(es[i].agg, CatTotal(all, es[i].key.1)))
  {
    if i > 0 {
      SharesAt(es[1..], all, i - 1);
    }
  }

  /** The market-share table: price sums per (company, category) over the FULL
      table, restricted to the chosen categories, with percentages. */
  function MarketShare(data: Table, category: seq<string>): (ms: seq<Share>)
    ensures |ms| == |ChosenEntries(data, category)|
  {
    Shares(ChosenEntries(data, category), ChosenEntries(data, category))
  }

  /** The sum of the percentages of the market-share rows of category `cat`. */
  function PercentSum(shares: seq<Share>, cat: string): real
  {
    if shares == [] then 0.0
    else
      (if shares[0].cat == cat && shares[0].percentage.Some? then shares[0].percentage.value else 0.0)
      + PercentSum(shares[1..], cat)
  }

  /** Adding `v` to key `k` changes a category total by `v` when `k` is in that category. */
  lemma {:induction false} CatTotalBump(g: seq<Entry<(string, string)>>, k: (string, string), v: int, cat: string)
    requires DistinctKeys(g)
    ensures CatTotal(Bump(g, k, v), cat) == CatTotal(g, cat) + (if k.1 == cat then v else 0)
  {
    if g != [] && g[0].key != k {
      DistinctTail(g);
      CatTotalBump(g[1..], k, v, cat);
    }
  }

  /** The category totals of the (company, category) table are the category totals
      of the rows it was built from. */
  lemma {:induction false} CatTotalOfGroup(data: Table, cat: string)
    ensures CatTotal(Group(data, CompanyCat, Price), cat) == CategoryTotal(data, cat)
  {
    if data != [] {
      CatTotalOfGroup(data[1..], cat);
      CatTotalBump(Group(data[1..], CompanyCat, Price), CompanyCat(data[0]), Price(data[0]), cat);
    }
  }

  /** Dropping the entries of other categories leaves a chosen category's total alone. */
  lemma {:induction false} CatTotalOfChosen(g: seq<Entry<(string, string)>>, category: seq<string>, cat: string)
    requires cat in category
    ensures CatTotal(Where(g, EntryInCategories(category)), cat) == CatTotal(g, cat)
  {
    if g != [] {
      CatTotalOfChosen(g[1..], category, cat);
    }
  }

  /** Filtering a table with distinct keys keeps them distinct. */
  lemma {:induction false} WhereKeepsDistinct<K(!new)>(g: seq<Entry<K>>, p: Entry<K> -> bool)
    requires DistinctKeys(g)
    ensures DistinctKeys(Where(g, p))
  {
    if g != [] {
      DistinctTail(g);
      WhereKeepsDistinct(g[1..], p);
      if p(g[0]) {
        var rest := Where(g[1..], p);
        assert g[0].key !in KeySet(rest);
        DistinctCons(g[0], rest);
      }
    }
  }

  /** The (company, category) entries of the full table that have a chosen category. */
  function ChosenEntries(data: Table, category: seq<string>): (es: seq<Entry<(string, string)>>)
    ensures DistinctKeys(es)
    ensures forall e :: e in es <==> e in Group(data, CompanyCat, Price) && e.key.1 in category
  {
    WhereKeepsDistinct(Group(data, CompanyCat, Price), EntryInCategories(category));
    Where(Group(data, CompanyCat, Price), EntryInCategories(category))
  }

  /** The `i`-th market-share row describes the `i`-th chosen entry. */
  lemma MarketShareAt(data: Table, category: seq<string>, i: nat)
    requires i < |ChosenEntries(data, category)|
    ensures |MarketShare(data, category)| == |ChosenEntries(data, category)|
    ensures var e := ChosenEntries(data, category)[i];
            MarketShare(data, category)[i] ==
            Share(e.key.0, e.key.1, e.agg, Percent(e.agg, CatTotal(ChosenEntries(data, category), e.key.1)))
  {
    SharesAt(ChosenEntries(data, category), ChosenEntries(data, category), i);
  }

  /** No (company, category) pair has two market-share rows. */
  lemma MarketSharePairsDistinct(data: Table, category: seq<string>)
    ensures forall i, j :: 0 <= i < j < |MarketShare(data, category)| ==>
              (MarketShare(data, category)[i].company, MarketShare(data, category)[i].cat) !=
              (MarketShare(data, category)[j].company, MarketShare(data, category)[j].cat)
  {
    var g := ChosenEntries(data, category);
    var ms := MarketShare(data, category);
    WhereKeepsDistinct(Group(data, CompanyCat, Price), EntryInCategories(category));
    forall i, j | 0 <= i < j < |ms| ensures (ms[i].company, ms[i].cat) != (ms[j].company, ms[j].cat) {
      MarketShareAt(data, category, i);
      MarketShareAt(data, category, j);
    }
  }

  /** Each market-share row is a (company, category) pair of the FULL table with a
      chosen category; it holds that pair's price sum over the full table and its
      percentage of the category's total across all companies. */
  lemma MarketShareRowFromFullTable(data: Table, category: seq<string>, s: Share)
    requires s in MarketShare(data, category)
    ensures s.cat in category
    ensures exists r :: r in data && r.company == s.company && r.cat == s.cat
    ensures s.price == KeySum(data, CompanyCat, Price, (s.company, s.cat))
    ensures s.percentage == Percent(s.price, CategoryTotal(data, s.cat))
  {
    var full := Group(data, CompanyCat, Price);
    var g := ChosenEntries(data, category);
    var ms := MarketShare(data, category);
    var i :| 0 <= i < |ms| && ms[i] == s;
    MarketShareAt(data, category, 0);
    MarketShareAt(data, category, i);
    var e := g[i];
    assert e in g;
    assert e in full && e.key.1 in category;
    var j :| 0 <= j < |full| && full[j] == e;
    LookupEntry(full, j);
    assert e.key in KeysOf(data, CompanyCat);
    var n :| 0 <= n < |data| && CompanyCat(data[n]) == e.key;
    assert data[n] in data;
    CatTotalOfChosen(full, category, s.cat);
    CatTotalOfGroup(data, s.cat);
  }

  /** Every (company, category) pair of the full table with a chosen category has a
      market-share row. */
  lemma MarketShareCoversFullTable(data: Table, category: seq<string>, r: Row)
    requires r in data && r.cat in category
    ensures exists s :: s in MarketShare(data, category) && s.company == r.company && s.cat == r.cat
  {
    var full := Group(data, CompanyCat, Price);
    var g := ChosenEntries(data, category);
    var ms := MarketShare(data, category);
    var n :| 0 <= n < |data| && data[n] == r;
    assert CompanyCat(data[n]) in KeysOf(data, CompanyCat);
    var e :| e in full && e.key == CompanyCat(r);
    assert e in g;
    var i :| 0 <= i < |g| && g[i] == e;
    MarketShareAt(data, category, i);
    assert ms[i] in ms;
  }

  /** The percentages of the entries `es` in category `cat` add up to the percentage
      of their part of the category total. */
  lemma {:induction false} PercentSumOfShares(es: seq<Entry<(string, string)>>, all: seq<Entry<(string, string)>>, cat: string)
    requires CatTotal(all, cat) != 0
    ensures PercentSum(Shares(es, all), cat) == Percentage(CatTotal(es, cat), CatTotal(all, cat))
  {
    var t := CatTotal(all, cat);
    PercentageBounds(t);
    if es != [] {
      var r := Shares(es, all);
      assert r[1..] == Shares(es[1..], all);
      SharesAt(es, all, 0);
      PercentSumOfShares(es[1..], all, cat);
      var a := if es[0].key.1 == cat then es[0].agg else 0;
      assert PercentSum(r, cat) == Percentage(a, t) + PercentSum(r[1..], cat);
      PercentageAdd(a, CatTotal(es[1..], cat), t);
    }
  }

  /** For a chosen category whose total across companies is not zero, its
      market-share percentages add up to 100. */
  lemma MarketShareSumsTo100(data: Table, category: seq<string>, cat: string)
    requires cat in category && CategoryTotal(data, cat) != 0
    ensures PercentSum(MarketShare(data, category), cat) == 100.0
  {
    var full := Group(data, CompanyCat, Price);
    var g := ChosenEntries(data, category);
    CatTotalOfChosen(full, category, cat);
    CatTotalOfGroup(data, cat);
    PercentSumOfShares(g, g, cat);
    PercentageBounds(CatTotal(g, cat));
  }

  /** Restricting to a chosen category and summing per (company, category) over the
      full table gives, for the selected company, the revenue of its selected rows. */
  lemma {:induction false} CompanyCatSumIsSelected(data: Table, company: string, category: seq<string>, cat: string)
    requires cat in category
    ensures KeySum(data, CompanyCat, Price, (company, cat)) ==
            KeySum(Selection(data, company, category), CatOf, Price, cat)
  {
    if data != [] {
      CompanyCatSumIsSelected(data[1..], company, category, cat);
    }
  }

  /** The market-share row of the selected company in a chosen category carries the
      revenue of the selected rows of that category. */
  lemma MarketShareMatchesSelection(data: Table, company: string, category: seq<string>)
    ensures forall s :: s in MarketShare(data, category) && s.company == company ==>
              s.price == KeySum(Selection(data, company, category), CatOf, Price, s.cat)
  {
    forall s | s in MarketShare(data, category) && s.company == company
      ensures s.price == KeySum(Selection(data, company, category), CatOf, Price, s.cat)
    {
      MarketShareRowFromFullTable(data, category, s);
      CompanyCatSumIsSelected(data, company, category, s.cat);
    }
  }

  // ---------------------------------------------------------------------------
  // Per-week views

  function WeekOf(r: Row): int { r.week }
  function CompanyWeek(r: Row): (string, int) { (r.company, r.week) }

  /** Number of selected rows per week. */
  function VolumePerWeek(sel: Table): (g: seq<Entry<int>>)
    ensures DistinctKeys(g)
    ensures forall w :: Lookup(g, w) == KeySum(sel, WeekOf, One, w)
  {
    Group(sel, WeekOf, One)
  }

  /** Price sum of the selected rows per week. */
  function RevenuePerWeek(sel: Table): (g: seq<Entry<int>>)
    ensures DistinctKeys(g)
    ensures forall w :: Lookup(g, w) == KeySum(sel, WeekOf, Price, w)
  {
    Group(sel, WeekOf, Price)
  }

  /** Each week of the selection appears once in both views; the weekly volumes
      add up to the total volume and the weekly revenues to the total revenue. */
  lemma PerWeekViews(sel: Table)
    ensures DistinctKeys(VolumePerWeek(sel)) && DistinctKeys(RevenuePerWeek(sel))
    ensures KeySet(VolumePerWeek(sel)) == KeySet(RevenuePerWeek(sel)) == set r | r in sel :: r.week
    ensures forall e :: e in VolumePerWeek(sel) ==> e.agg >= 1
    ensures forall w :: Lookup(VolumePerWeek(sel), w) == KeySum(sel, WeekOf, One, w)
    ensures forall w :: Lookup(RevenuePerWeek(sel), w) == KeySum(sel, WeekOf, Price, w)
    ensures Total(VolumePerWeek(sel)) == Summary(sel).totalVolume
    ensures Total(RevenuePerWeek(sel)) == Summary(sel).totalRevenue
  {
    CountTable(sel, WeekOf);
    KeysOfRows(sel, WeekOf);
  }

  /** The rows of any company with a chosen category (main.py rebinds `data` to them). */
  function CategoryRows(data: Table, category: seq<string>): (rows: Table)
    ensures forall r :: r in rows <==> r in data && r.cat in category
    ensures IsSubsequence(rows, data)
  {
    Where(data, InCategories(category))
  }

  /** Each row with a chosen category is kept as often as it occurs in `data`, so the
      cross-company counts and sums see every duplicate. */
  lemma CategoryRowsCounts(data: Table, category: seq<string>, r: Row)
    ensures multiset(CategoryRows(data, category))[r] == if r.cat in category then multiset(data)[r] else 0
  {
    WhereCount(data, InCategories(category), r);
  }

  /** Number of rows with a chosen category per (company, week). */
  function MarketVolumePerWeek(data: Table, category: seq<string>): (g: seq<Entry<(string, int)>>)
    ensures DistinctKeys(g)
    ensures forall k :: Lookup(g, k) == KeySum(CategoryRows(data, category), CompanyWeek, One, k)
  {
    Group(CategoryRows(data, category), CompanyWeek, One)
  }

  /** Price sum of the rows with a chosen category per (company, week). */
  function MarketRevenuePerWeek(data: Table, category: seq<string>): (g: seq<Entry<(string, int)>>)
    ensures DistinctKeys(g)
    ensures forall k :: Lookup(g, k) == KeySum(CategoryRows(data, category), CompanyWeek, Price, k)
  {
    Group(CategoryRows(data, category), CompanyWeek, Price)
  }

  /** Summing per (company, week) over the category rows, and per week over the
      selection, agree for the selected company. */
  lemma {:induction false} CompanyWeekSumIsSelected(data: Table, company: string, category: seq<string>, week: int, val: Row -> int)
    ensures KeySum(CategoryRows(data, category), CompanyWeek, val, (company, week)) ==
            KeySum(Selection(data, company, category), WeekOf, val, week)
  {
    if data != [] {
      CompanyWeekSumIsSelected(data[1..], company, category, week, val);
    }
  }

  /** In the cross-company weekly views, the entries of the selected company are the
      selected company's weekly views: the same weeks, volumes and revenues. */
  lemma MarketWeeklyMatchesSelection(data: Table, company: string, category: seq<string>, week: int)
    ensures (company, week) in KeySet(MarketVolumePerWeek(data, category)) <==>
            week in KeySet(VolumePerWeek(Selection(data, company, category)))
    ensures Lookup(MarketVolumePerWeek(data, category), (company, week)) ==
            Lookup(VolumePerWeek(Selection(data, company, category)), week)
    ensures Lookup(MarketRevenuePerWeek(data, category), (company, week)) ==
            Lookup(RevenuePerWeek(Selection(data, company, category)), week)
  {
    var rows := CategoryRows(data, category);
    var sel := Selection(data, company, category);
    CompanyWeekSumIsSelected(data, company, category, week, One);
    CompanyWeekSumIsSelected(data, company, category, week, Price);
    KeysOfRows(rows, CompanyWeek);
    KeysOfRows(sel, WeekOf);
    if week in KeySet(VolumePerWeek(sel)) {
      var r :| r in sel && r.week == week;
      assert CompanyWeek(r) == (company, week);
    }
  }

  // ---------------------------------------------------------------------------
  // A worked example: company A sells X at 10 and 20 and Y at 5, company B sells
  // X at 15, all in week 1.

  function ExampleData(): Table
  {
    [Row("A", "X", 10, 1), Row("A", "X", 20, 1), Row("A", "Y", 5, 1), Row("B", "X", 15, 1)]
  }

  /** Choosing A and category X selects the two X rows of A: revenue 30, average
      15, volume 2. */
  lemma ExampleSelection()
    ensures Selection(ExampleData(), "A", ["X"]) == ExampleData()[..2]
    ensures Summary(Selection(ExampleData(), "A", ["X"])) == Kpis(30, Some(15.0), 2)
  {
    var data := ExampleData();
    ExampleSelectionOf(data[0], data[1], data[2], data[3]);
    assert data == [data[0], data[1], data[2], data[3]];
    assert data[..2] == [data[0], data[1]];
    ExampleSummary();
  }

  /** Four rows shaped like the example's, filtered one at a time: the two X rows
      of A are kept, the Y row of A and the X row of B are not. */
  lemma ExampleSelectionOf(a: Row, b: Row, c: Row, d: Row)
    requires a.company == "A" && a.cat == "X" && b.company == "A" && b.cat == "X"
    requires c.company == "A" && c.cat == "Y" && d.company == "B"
    ensures Where([a, b, c, d], Selected("A", ["X"])) == [a, b]
  {
    var p := Selected("A", ["X"]);
    var s := [a, b, c, d];
    assert s[1..] == [b, c, d] && s[2..] == [c, d] && s[3..] == [d];
    assert [d][1..] == [];
    assert Where(s[3..], p) == [];
    assert Where(s[2..], p) == [];
    assert Where(s[1..], p) == [b];
  }

  /** The KPIs of the two X rows of A. */
  lemma ExampleSummary()
    ensures Summary(ExampleData()[..2]) == Kpis(30, Some(15.0), 2)
  {
    var sel := ExampleData()[..2];
    assert sel[1..][1..] == [];
    assert SumVal(sel[1..], Price) == 20;
    assert SumVal(sel, Price) == 30;
  }

  /** The example's price sums per (company, category) and per category. */
  lemma ExampleSums()
    ensures KeySum(ExampleData(), CompanyCat, Price, ("A", "X")) == 30
    ensures KeySum(ExampleData(), CompanyCat, Price, ("B", "X")) == 15
    ensures CategoryTotal(ExampleData(), "X") == 45
  {
    var data := ExampleData();
    assert data[1..][1..] == data[2..];
    assert data[2..][1..] == data[3..];
    assert data[3..][1..] == [];
  }

  /** The X rows of the example belong to A or B. */
  lemma ExampleXRow(r: Row)
    requires r in ExampleData() && r.cat == "X"
    ensures r.company == "A" || r.company == "B"
  {
    var data := ExampleData();
    assert r == data[0] || r == data[1] || r == data[2] || r == data[3];
  }

  /** With category X chosen, every market-share row is A with two thirds of the X
      market or B with one third ... */
  lemma ExampleMarketShareRows()
    ensures forall s :: s in MarketShare(ExampleData(), ["X"]) ==>
              || s == Share("A", "X", 30, Some(200.0 / 3.0))
              || s == Share("B", "X", 15, Some(100.0 / 3.0))
  {
    forall s | s in MarketShare(ExampleData(), ["X"])
      ensures s == Share("A", "X", 30, Some(200.0 / 3.0)) || s == Share("B", "X", 15, Some(100.0 / 3.0))
    {
      ExampleShareRow(ExampleData(), s);
    }
  }

  /** One market-share row of the example, traced back to the full table. */
  lemma ExampleShareRow(data: Table, s: Share)
    requires data == ExampleData() && s in MarketShare(data, ["X"])
    ensures s == Share("A", "X", 30, Some(200.0 / 3.0)) || s == Share("B", "X", 15, Some(100.0 / 3.0))
  {
    MarketShareRowFromFullTable(data, ["X"], s);
    var r :| r in data && r.company == s.company && r.cat == s.cat;
    ExampleXRow(r);
    ExampleShare(s);
  }

  /** The example's X row of A or B, from its price sum and category total. */
  lemma ExampleShare(s: Share)
    requires s.cat == "X" && (s.company == "A" || s.company == "B")
    requires s.price == KeySum(ExampleData(), CompanyCat, Price, (s.company, s.cat))
    requires s.percentage == Percent(s.price, CategoryTotal(ExampleData(), s.cat))
    ensures s == Share("A", "X", 30, Some(200.0 / 3.0)) || s == Share("B", "X", 15, Some(100.0 / 3.0))
  {
    ExampleSums();
    assert Percentage(30, 45) == 200.0 / 3.0;
    assert Percentage(15, 45) == 100.0 / 3.0;
  }

  /** ... and both rows are there. */
  lemma ExampleMarketShareHasBoth()
    ensures Share("A", "X", 30, Some(200.0 / 3.0)) in MarketShare(ExampleData(), ["X"])
    ensures Share("B", "X", 15, Some(100.0 / 3.0)) in MarketShare(ExampleData(), ["X"])
  {
    var ms := MarketShare(ExampleData(), ["X"]);
    MarketShareCoversFullTable(ExampleData(), ["X"], ExampleData()[0]);
    MarketShareCoversFullTable(ExampleData(), ["X"], ExampleData()[3]);
    var a :| a in ms && a.company == "A" && a.cat == "X";
    var b :| b in ms && b.company == "B" && b.cat == "X";
    MarketShareRowFromFullTable(ExampleData(), ["X"], a);
    MarketShareRowFromFullTable(ExampleData(), ["X"], b);
    ExampleShare(a);
    ExampleShare(b);
  }
}
