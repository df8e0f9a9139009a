# Sales dashboard: filter-and-aggregate pipeline

This is a Dafny model of the data pipeline behind the sales dashboard in `main.py`.
The dashboard loads one sales table (`SalesA` or `SalesB`). Each row has a company, a
product category (`cat`), a price and a week. The user picks a company and a set of
categories, and the dashboard derives several values from those choices:

- the category options of the company and the "select all" choice;
- the selected rows (`data.query("company == @company & cat in @category")`);
- three KPIs: total revenue, average revenue and total volume;
- the frequency of each (category, price) pair among the selected rows;
- the market share of every company in each chosen category, computed from the full table;
- per-week volume and revenue for the selection, and the same per (company, week) across all companies in the chosen categories.

The model has three modules:

- `Rows` (`rows.dfy`) defines the row, the table and the generic sequence operations: filtering that keeps order (`Where`), distinct values in order of first appearance (`Unique`) and column sums (`SumVal`).
- `Grouping` (`grouping.dfy`) models a pandas `groupby(...).sum()`/`.count()` followed by `reset_index()`. The result is a sequence of `Entry(key, agg)` with pairwise distinct keys, built by folding rows in one at a time (`Bump`). It is related to a reference definition, `KeySum`: the sum of a value over the rows that have a given key. A count is the sum of the constant 1.
- `Dashboard` (`dashboard.dfy`) models each step of the pipeline and proves its properties. It ends with a small worked example.

The pipeline is pure: each step computes a new table from earlier ones. So the model is written entirely as functions and lemmas. The loaded table and the user's widget choices are parameters.

## Model

| member | source | states |
|---|---|---|
| Rows.Where | main.py:54 | a row is in the filtered table iff it is in the input and satisfies the condition; the result is a subsequence of the input, so order is kept |
| Rows.WhereCount | main.py:54 | filtering keeps every occurrence of a satisfying row and drops every other row |
| Rows.Unique | main.py:41 | the distinct values contain exactly the input's values, each once |
| Rows.SumOneIsLength | main.py:62 | counting the rows (summing 1 per row) gives the number of rows |
| Rows.SumValBounds | main.py:60 | when every price lies in [lo, hi], the sum over n rows lies in [n*lo, n*hi] |
| Grouping.Bump | main.py:116 | adding a row to a grouped table keeps the keys distinct, adds the row's key and adds its value to that key alone and to the total |
| Grouping.Group | main.py:116 | a grouped table has distinct keys, exactly the keys present in the rows, the per-key sum of the rows at each key, and a total equal to the column sum |
| Grouping.CountTable | main.py:85 | every count entry is at least 1 and the counts add up to the number of rows |
| Dashboard.CompanyRows | main.py:41 | the company's rows are exactly the rows of the table with that company, in table order (a subsequence of the table) |
| Dashboard.CompanyRowsCounts | main.py:41 | each row of the company is kept as often as it occurs in the table; no other row is kept |
| Dashboard.CategoryOptions | main.py:41 | the options have no duplicates, and a category is an option iff some row of the company has it |
| Dashboard.SelectAllSelectsCompanyRows | main.py:43-46 | choosing all options selects exactly the company's rows, in order |
| Dashboard.Selection | main.py:54 | a row is selected iff it is in the table, belongs to the company and its category is chosen; the selection is a subsequence of the table |
| Dashboard.SelectionCounts | main.py:54 | each selected row is kept as often as it occurs in the table; no other row is kept |
| Dashboard.SelectionDependsOnChosenSet | main.py:54 | two category choices with the same members select the same rows, whatever their order or repetitions |
| Dashboard.EmptySelection | main.py:54-62 | choosing no category selects nothing: revenue 0, volume 0, no average |
| Dashboard.Summary | main.py:60-62 | the average exists iff the selection is non-empty, and average times volume is the revenue |
| Dashboard.SummaryOfSelection | main.py:60-62 | volume is the number of selected rows and revenue is the sum of their prices; when every price lies in [lo, hi], revenue lies in [volume*lo, volume*hi] and the average in [lo, hi] |
| Dashboard.CategoryVolume | main.py:85 | the (category, price) count table has distinct keys, and each pair's count is the number of selected rows with that pair (further properties in `CategoryVolumeCounts`) |
| Dashboard.CategoryVolumeCounts | main.py:85-87 | the (category, price) table has each pair present in the selection exactly once; each count is that pair's number of rows and is at least 1; the counts add up to the total volume |
| Dashboard.ChosenEntries | main.py:100-101 | the chosen entries are exactly the entries of the full-table (company, category) price sums whose category is chosen, with distinct keys |
| Dashboard.CatTotal | main.py:102 | the per-category sum behind `transform('sum')`; its meaning is stated by `CatTotalOfGroup` and `CatTotalOfChosen` (the category's full-table revenue) |
| Dashboard.Shares | main.py:102 | one market-share row per entry; the i-th row is given by `SharesAt` |
| Dashboard.MarketShare | main.py:100-102 | one market-share row per chosen (company, category) entry; its rows are characterised by `MarketShareAt`, `MarketShareRowFromFullTable` and `MarketShareCoversFullTable` |
| Dashboard.Percent | main.py:102 | a percentage exists iff the category total is nonzero |
| Dashboard.PercentageAdd | main.py:102 | the percentages of two parts of one whole add up to the percentage of their sum |
| Dashboard.CatTotalOfGroup | main.py:100-102 | adding up the per-(company, category) revenues of one category gives that category's revenue over the full table |
| Dashboard.CatTotalOfChosen | main.py:101-102 | for a chosen category, keeping only the chosen categories does not change that category's total |
| Dashboard.MarketShareAt | main.py:100-102 | the i-th market-share row is the i-th chosen (company, category) entry, with its revenue as a percentage of its category's total |
| Dashboard.MarketSharePairsDistinct | main.py:100 | no (company, category) pair appears twice in the market-share table |
| Dashboard.MarketShareRowFromFullTable | main.py:100-102 | every market-share row has a chosen category and a pair that occurs in the full table; its revenue is that pair's revenue over the full table (not only the selected company); its percentage is that revenue relative to the category's full-table revenue |
| Dashboard.MarketShareCoversFullTable | main.py:100-101 | every (company, category) pair of the full table with a chosen category has a market-share row |
| Dashboard.PercentSumOfShares | main.py:102 | the percentages of one category add up to that category's part of the total, in percent |
| Dashboard.MarketShareSumsTo100 | main.py:102 | within a chosen category whose total revenue is nonzero, the companies' percentages add up to exactly 100 |
| Dashboard.CompanyCatSumIsSelected | main.py:100 | a chosen category's full-table revenue for the selected company equals the selection's revenue in that category |
| Dashboard.MarketShareMatchesSelection | main.py:100-102 | the market-share revenue of the selected company in a category equals the selection's revenue in that category |
| Dashboard.VolumePerWeek | main.py:116 | the weekly volume table has distinct weeks, and each week's volume is the number of selected rows in that week |
| Dashboard.RevenuePerWeek | main.py:119 | the weekly revenue table has distinct weeks, and each week's revenue is the price sum of the selected rows in that week |
| Dashboard.PerWeekViews | main.py:116-119 | each selected week appears once in the weekly volume and revenue tables; each volume is that week's row count and at least 1; each revenue is that week's price sum; volumes add up to the total volume and revenues to the total revenue |
| Dashboard.CategoryRows | main.py:121 | the rows kept are exactly those whose category is chosen, of any company, in table order (a subsequence of the table) |
| Dashboard.CategoryRowsCounts | main.py:121 | each row with a chosen category is kept as often as it occurs in the table, so duplicates reach the counts and sums; no other row is kept |
| Dashboard.MarketVolumePerWeek | main.py:124 | the cross-company weekly volume table has distinct (company, week) keys, and each count is the number of chosen-category rows with that key |
| Dashboard.MarketRevenuePerWeek | main.py:127 | the cross-company weekly revenue table has distinct (company, week) keys, and each sum is the price sum of the chosen-category rows with that key |
| Dashboard.CompanyWeekSumIsSelected | main.py:116-127 | a company's per-week sum over the chosen-category rows equals the selection's per-week sum |
| Dashboard.MarketWeeklyMatchesSelection | main.py:116-127 | in the cross-company weekly tables, the selected company has an entry for a week iff the selection has that week, with the same volume and the same revenue |
| Dashboard.ExampleSelection | main.py:54-62 | example: choosing company A and category X keeps A's two X rows, giving revenue 30, average 15 and volume 2 |
| Dashboard.ExampleSums | main.py:100-102 | example: A and B have X revenues of 30 and 15, and the X total is 45 |
| Dashboard.ExampleMarketShareRows | main.py:100-102 | example: every X market-share row is A at 200/3 percent or B at 100/3 percent |
| Dashboard.ExampleMarketShareHasBoth | main.py:100-102 | example: both of those rows are present |

## Left out

- The Streamlit page is not modelled (main.py:25-38, 43-44, 47-51, 57, 65-83 and from 131 on): headers, columns, checkboxes, charts and layout. The chosen company, dataset and categories are parameters.
- The multiselect default, the first option (main.py:50), is not modelled. It is one particular choice among those `Selection` accepts.
- `get_data` reads a SQLite table through a Streamlit cache (main.py:14-19). This is I/O: the loaded table is a parameter of every function.
- The Plotly charts are not modelled (main.py:89-97, 104-112). They only display the tables that are modelled.
- Dashboard.Summary: the revenue is an exact integer sum, so the `int(...)` at main.py:60 changes nothing for integer prices. The average is the exact rational quotient; its rounding to one decimal (main.py:61) and floating-point error are not modelled.
- Dashboard.Summary: pandas gives NaN as the mean of an empty selection. The model gives `None` instead.
- Dashboard.Percent: floating-point division is modelled as exact real division. When a category's total is 0, pandas gives NaN or infinity; the model gives `None`.
- Grouping.Group: pandas sorts grouped results by key, and `value_counts` sorts by descending count. The entries here come in a fold order instead. Contents, distinct keys and aggregates are modelled; order is not.
- Prices are non-null integers. So `count()` of the price column (main.py:62, 116, 124) is the number of rows, and null handling is not modelled.
- Integers are unbounded. pandas sums the price column as int64, which wraps on overflow; the model assumes sums stay within int64.
- The key columns (company, cat, week) are non-null. `groupby` and `value_counts` drop rows with a null key by default; the model assumes there are none.
- A company absent from the table cannot be chosen in the source. The model accepts any company string, and then the selection is empty.
