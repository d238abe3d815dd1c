# E-commerce dashboard aggregations

A Dafny model of the data core of the Streamlit dashboard `dashboard.py`.
The dashboard loads one cleaned table of order lines. Each line holds an
order id, a customer id, a product category, an item count (the
`order_item_id` column), a payment value, a purchase timestamp, and the
customer's city and state. The dashboard keeps the lines whose purchase
falls in a picked date range. From them it builds five summaries:

- orders and revenue per calendar day;
- item counts per product category, largest first;
- distinct customers per state (twice, as the "gender" and the "state"
  views) and per city (the "age" view);
- a recency / frequency / monetary (RFM) row per customer.

The model is pure: the table is a `seq<Record>`, and each summary is a
function of it returning a sequence of rows. Lemmas state what each row
means in terms of the table.

Modules:

- `StrOrder`: Python's `str` ordering as code-point lexicographic order, proved to be a strict total order. Every `groupby` result is sorted by it.
- `Table`: the record and column access, plus the reductions every summary uses:
  - selecting a group;
  - distinct values of a column;
  - sums;
  - the latest and earliest purchase timestamp;
  - calendar days, with `Day(ts) = ts / 86400`.
- `Keys`: the sorted distinct keys of a column, and the fact that per-key sums over all keys add up to the table's sum.
- `RangeFilter`: the date-range filter that produces `main_df`.
- `DailyOrders`: `create_daily_orders_df`.
- `OrderItems`: `create_sum_order_items_df`.
- `Customers`: `create_bygender_df`, `create_byage_df` and `create_bystate_df`, as one operation parameterised by the column grouped on.
- `Rfm`: `create_rfm_df`.

Timestamps are whole seconds since the epoch. Dates are day numbers. Payments are integers, i.e. cents.

Three behaviours of the code that a reader of the dashboard might not expect:

- The filter's upper bound (line 96) is midnight at the start of the last picked date, not the end of that day. See "## Findings".
- The daily resample (lines 16-18) emits a row for every day from the first purchase day to the last. Days without purchases get a zero count and zero revenue.
- The category ranking (line 31) uses pandas' default sort, which is not stable. The model promises nothing about the order of categories with equal sums.

## Model

| member | source | states |
|---|---|---|
| RangeFilter.SelectBetween | dashboard.py:94-97 | The boolean-mask selection keeps a subsequence of the table in table order. It keeps every copy of each row whose timestamp is within both bounds, and drops every other row. |
| RangeFilter.Midnight | dashboard.py:95-96 | No contract of its own: the timestamp that `str(start_date)` and `str(end_date)` stand for when compared with a timestamp column, midnight at the start of the date. SelectKeeps, FirstDateIncluded and LastDateExcludedAfterMidnight state what the comparisons with it keep. |
| RangeFilter.Select | dashboard.py:94-97 | `main_df`: a subsequence of the table, every kept row between midnight of the first date and midnight of the last. SelectKeeps states which rows are kept. |
| RangeFilter.SelectDays | dashboard.py:94-97 | The corrected filter: a subsequence of the table, every kept row no earlier than midnight of the first date and before midnight after the last date. SelectDaysKeeps states which rows are kept. |
| RangeFilter.SelectKeeps | dashboard.py:94-97 | `main_df` keeps a row of the table exactly when its timestamp is no earlier than midnight of the first date and no later than midnight of the last date. It keeps table order. |
| RangeFilter.LastDateExcludedAfterMidnight | dashboard.py:96 | A purchase on the last picked date is dropped unless it was made exactly at midnight. |
| RangeFilter.FirstDateIncluded | dashboard.py:95 | A purchase at any time on the first picked date is kept when the range spans more than one day. |
| RangeFilter.AfternoonPurchaseDropped | dashboard.py:94-97 | Concrete input: a single afternoon purchase on a one-day range is dropped by `Select` and kept by `SelectDays`. |
| RangeFilter.SelectDaysKeeps | dashboard.py:94-97 | The corrected whole-day filter keeps a row exactly when its purchase date lies between the two picked dates, both included. It keeps table order. |
| Table.Day | dashboard.py:16 | A timestamp's calendar day is the day whose 86400-second span contains it. |
| Table.Group | dashboard.py:29 | No contract of its own: the rows of one `groupby` group, in table order. GroupMember, GroupCount and GroupPermutation state it. |
| Table.GroupMember | dashboard.py:29 | A row is in the group of key `k` exactly when it is a row of the table whose column holds `k`. The group is no larger than the table. |
| Table.GroupCount | dashboard.py:29 | The group keeps every copy of each row with its key and no other row. |
| Table.GroupPermutation | dashboard.py:29 | Reordering the table reorders each group and changes nothing else in it. |
| Table.DayGroup | dashboard.py:16 | No contract of its own: the rows of one daily resample bin, in table order. DayGroupMember, DayGroupCount and DayGroupPermutation state it. |
| Table.DayGroupMember | dashboard.py:16 | A row is in the bin of day `d` exactly when it is a row of the table purchased on day `d`. The bin is no larger than the table. |
| Table.DayGroupCount | dashboard.py:16 | The bin keeps every copy of each row purchased that day and no other row. |
| Table.DayGroupPermutation | dashboard.py:16 | Reordering the table reorders each daily bin and changes nothing else in it. |
| Table.DayMonotone | dashboard.py:16 | A later timestamp never falls on an earlier day. |
| Table.Values | dashboard.py:17 | No contract of its own: the distinct values of a column, the `nunique` of lines 17, 38, 45, 52 and 62 and the key set of every `groupby`. ValuesMember, ValuesBound and GroupValues state it. |
| Table.ValuesMember | dashboard.py:17 | Every row's value is among the distinct values, and every distinct value is held by some row. |
| Table.ValuesBound | dashboard.py:17 | There are no more distinct values than rows, and at least one when there is a row. |
| Table.GroupValues | dashboard.py:38 | The distinct values of a column within one group are the values of that column over the rows with the group's key. |
| Table.ValuesOrderFree | dashboard.py:17 | `nunique` depends only on which rows are present, not on their order or on repetition. |
| Table.Total | dashboard.py:17 | No contract of its own: the `sum` of one measure column (lines 17, 30 and 63). TotalCons, TotalAppend, TotalPermutation and KeyedTotalCovers state it. |
| Table.TotalCons | dashboard.py:17 | Proof helper, the definition of the sum unfolded for a leading row: the sum over a row followed by a table is that row's value plus the table's sum. |
| Table.TotalAppend | dashboard.py:17 | The sum over two tables laid end to end is the sum of their sums. |
| Table.TotalRemove | dashboard.py:17 | Taking out one row lowers the sum by exactly that row's value. |
| Table.TotalPermutation | dashboard.py:17 | Two tables holding the same rows the same number of times have the same sum, whatever their order. |
| Table.SameRows | dashboard.py:16 | Proof helper for the order-independence lemmas, a general fact about sequences: two orderings of the same rows have the same length and the same members. |
| Table.MaxDay | dashboard.py:69 | `dt.date.max()`: the latest purchase date is held by some row and no row is later. |
| Table.MaxTimestamp | dashboard.py:61 | The latest purchase timestamp is held by some row and is at least every row's timestamp. |
| Table.MinTimestamp | dashboard.py:16 | The earliest purchase timestamp, where the resample's first bin starts, is held by some row and is at most every row's timestamp. |
| Table.ExtremaOrderFree | dashboard.py:16 | The earliest and latest timestamps and the latest purchase date depend only on which rows are present (lines 16, 61 and 69). |
| Table.DayOfMaxTimestamp | dashboard.py:68-69 | The date of the latest timestamp is the latest purchase date. |
| StrOrder.LessIrreflexive | dashboard.py:38-59 | No key sorts before itself. The groups of lines 38, 45, 52 and 59 come out in this order. |
| StrOrder.LessTransitive | dashboard.py:38-59 | Key order is transitive. |
| StrOrder.LessTotal | dashboard.py:38-59 | Of two different keys, one sorts before the other. |
| Keys.SortedKeys | dashboard.py:38 | The group keys are strictly ascending, and they are exactly the values the column holds. |
| Keys.SortedKeysOrderFree | dashboard.py:29 | The sorted group keys depend only on which rows are present. |
| Keys.KeyedTotalCovers | dashboard.py:29-30 | Summing a measure group by group, over strictly ascending keys (each key once) that hold every row's key, gives the sum over the whole table. |
| DailyOrders.DayRows | dashboard.py:16-18 | The resample produces one row per day for `n` consecutive days. Each row is that day's bin. |
| DailyOrders.DayRow | dashboard.py:16-18 | No contract of its own: one resample bin, `nunique` of the order ids and `sum` of the payments of one day. DayOrderCount and DayWithoutOrders state it, and DailyRowMeaning gives its revenue on every day. |
| DailyOrders.CreateDailyOrders | dashboard.py:15-24 | No contract of its own: DailyOrdersSpan, DailyRowMeaning, DailyRevenueTotal and DailyOrdersOrderFree state it. |
| DailyOrders.DailyOrdersSpan | dashboard.py:16-19 | The table is empty exactly when the input is. Its rows run over consecutive days. The first and the last rows are purchase days, and every purchase falls within the span. |
| DailyOrders.DayOrderCount | dashboard.py:17 | A day's `order_count` is the number of distinct order ids purchased that day. It is at most that day's number of rows. |
| DailyOrders.DayWithoutOrders | dashboard.py:16-18 | A day's `order_count` is zero exactly when nothing was purchased that day. Its revenue is then zero too. |
| DailyOrders.DailyRowMeaning | dashboard.py:16-22 | The row at position `i` is the row of day `first + i`, where `first` is the first row's date. For every row, `order_count` is the number of distinct orders of its day. It is at most that day's rows, and zero exactly on days without purchases. The revenue is the sum of that day's payments, zero on a day without orders. |
| DailyOrders.DailyRevenueTotal | dashboard.py:120-122 | The total revenue the dashboard shows, the sum of the daily revenues, equals the sum of all payments of the filtered table. |
| DailyOrders.DayRowOrderFree | dashboard.py:16-17 | One day's bin row depends only on which rows the table holds and how often, not on their order. |
| DailyOrders.DailyOrdersOrderFree | dashboard.py:15-24 | The daily table is the same for any ordering of the same input rows. |
| OrderItems.InsertByTotal | dashboard.py:31 | Inserting one category row into a ranked list keeps the list non-increasing, and adds no other row. |
| OrderItems.CategoryRow | dashboard.py:29-30 | No contract of its own: one category's `order_item_id` sum. SumOrderItemsGroups states it. |
| OrderItems.CategoryTotals | dashboard.py:29-30 | No contract of its own: the per-category sums, categories ascending. SumOrderItemsGroups and SumOrderItemsTotal state it after ranking. |
| OrderItems.CreateSumOrderItems | dashboard.py:27-34 | No contract of its own: SumOrderItemsGroups and SumOrderItemsTotal state it. |
| OrderItems.InsertByTotalPermutes | dashboard.py:31 | Insertion adds exactly the inserted row to the multiset of rows. |
| OrderItems.SortByTotal | dashboard.py:31 | `sort_values(ascending=False)` gives a non-increasing permutation of the rows. |
| OrderItems.SortByTotalSum | dashboard.py:31 | Ranking keeps the sum of the item totals. |
| OrderItems.SumOrderItemsGroups | dashboard.py:28-33 | The ranked table is non-increasing by total. It has exactly one row per category present in the table, and no category twice. Each row's total is the sum of its category's item counts. |
| OrderItems.SumOrderItemsTotal | dashboard.py:28-33 | The category totals add up to the item count summed over the whole table. |
| OrderItems.SumOrderItemsOrderFree | dashboard.py:27-34 | The ranked category table is the same for any ordering of the same input rows, ties included. |
| Customers.CustomerCountKeys | dashboard.py:37-55 | Keys are strictly ascending. There is one row for each key present in the table and no other row. |
| Customers.CustomerCountBy | dashboard.py:37-55 | No contract of its own: the distinct customers per key of one column, keys ascending. CustomerCountKeys, CustomerCountMeaning and CustomerCountOrderFree state it. |
| Customers.CreateByGender | dashboard.py:37-41 | No contract of its own: CustomerCountBy on the state column. ByGenderIsByState and the CustomerCountBy lemmas state it. |
| Customers.CreateByAge | dashboard.py:44-48 | No contract of its own: CustomerCountBy on the city column. CustomerCountKeys, CustomerCountMeaning and CustomerCountOrderFree state it with the city column. |
| Customers.CreateByState | dashboard.py:51-55 | No contract of its own: CustomerCountBy on the state column. The CustomerCountBy lemmas state it. |
| Customers.KeyRowOrderFree | dashboard.py:38 | One group's customer count depends only on which rows the table holds. |
| Customers.CustomerCountMeaning | dashboard.py:38 | Each `customer_count` is the number of distinct customer ids with that key. It is at least 1, and at most the number of rows with that key. |
| Customers.CustomerCountOrderFree | dashboard.py:38 | The counts depend only on which rows the table holds, not on their order or on repetition. |
| Customers.ByGenderIsByState | dashboard.py:37-55 | `create_bygender_df` and `create_bystate_df` produce the same table. |
| Customers.KeyRow | dashboard.py:38 | No contract of its own: one group's `customer_id.nunique()`. CustomerCountMeaning and KeyRowOrderFree state it. |
| Rfm.RfmCustomers | dashboard.py:59 | There is one RFM row per customer of the table, customers strictly ascending. |
| Rfm.RfmCustomersAscending | dashboard.py:59 | The RFM rows follow the customers in strictly ascending order. |
| Rfm.CustomerRow | dashboard.py:59-71 | No contract of its own: one customer's frequency, monetary and recency. CustomerFrequency and CustomerRecency state the frequency and recency; RfmRowMeaning states all three, monetary included. |
| Rfm.CreateRfm | dashboard.py:58-75 | No contract of its own: RfmCustomers, RfmRowMeaning, RfmRecencyZero and RfmMonetaryTotal state it. |
| Rfm.CustomerFrequency | dashboard.py:62 | A customer's frequency is their number of distinct order ids, at least 1. |
| Rfm.CustomerRecency | dashboard.py:61-71 | `recent_date - recency` is the date of the customer's latest purchase. It is held by one of their rows and is no earlier than any of them. |
| Rfm.RfmRowMeaning | dashboard.py:58-75 | Every row has: frequency equal to the distinct order count, at least 1; monetary equal to the sum of the customer's payments; and recency equal to the days from the customer's latest purchase date to the table's latest purchase date, never negative. |
| Rfm.RfmRecencyZero | dashboard.py:69-71 | On a non-empty table some customer has recency 0. |
| Rfm.RfmMonetaryTotal | dashboard.py:59-63 | The monetary values add up to the sum of all payments of the table. |
| Rfm.CustomerRowOrderFree | dashboard.py:59-71 | One customer's row depends only on which rows the table holds and how often, not on their order. |
| Rfm.RfmOrderFree | dashboard.py:58-75 | The RFM table is the same for any ordering of the same input rows. |

## Left out

- Loading the CSV, the Streamlit sidebar and date picker, the charts, and `head(5)` / `sort_values` for display are not modelled. The picked dates are parameters of the filter.
- Formatting the revenue as currency (`format_currency`) is not modelled.
- The number of orders shown (line 116, the sum of `order_count`) is not modelled.
- The mean recency, frequency and monetary metrics and their rounding are not modelled.
- Payments are integers (cents), not floats. Floating-point sums and rounding are not modelled.
- Missing (NaN) keys, which `groupby` drops, are not modelled. Every record has every column.
- Timestamps are whole seconds with no time zone. Sub-second precision is not modelled.
- OrderItems.SortByTotal: promises only a non-increasing permutation. pandas' unstable sort leaves the order of equal totals unspecified, and the model's insertion sort picks one order that no contract relies on.
- Column renames and `reset_index` change only names. They are reflected in the field names of the row datatypes.

## Findings

| source | as written | input that shows it | evidently intended | confidence | as-written member | corrected member |
|---|---|---|---|---|---|---|
| dashboard.py:96 | `order_purchase_timestamp <= str(end_date)` compares with midnight at the start of the last picked date | one purchase at 13:00 on day 10, range 10 .. 10: dropped | keep every purchase made on the last picked date | high, not executed | RangeFilter.LastDateExcludedAfterMidnight | RangeFilter.SelectDaysKeeps |
