/**
 * `create_sum_order_items_df`: the `order_item_id` column summed per
 * product category, then ranked by that sum, largest first. pandas ranks
 * with its default (unstable) sort, so the order of categories with equal
 * sums is not specified; the model ranks with an insertion sort and promises
 * only what pandas does: a non-increasing permutation of the groups.
 */
module OrderItems {
  import opened Table
  import opened Keys

  datatype ItemRow = ItemRow(category: string, itemTotal: int)

  /** The row of one category group: `order_item_id.sum()`. */
  function CategoryRow(t: seq<Record>, c: string): ItemRow
  {
    ItemRow(c, Total(Group(t, Category, c), Items))
  }

  /** The groups of `keys`, in the order of `keys`. */
  function CategoryRows(t: seq<Record>, keys: seq<string>): (r: seq<ItemRow>)
    ensures |r| == |keys|
    ensures forall i :: 0 <= i < |keys| ==> r[i].category == keys[i]
  {
    if |keys| == 0 then [] else [CategoryRow(t, keys[0])] + CategoryRows(t, keys[1..])
  }

  lemma {:induction false} CategoryRowsAt(t: seq<Record>, keys: seq<string>, i: int)
    requires 0 <= i < |keys|
    ensures CategoryRows(t, keys)[i] == CategoryRow(t, keys[i])
    decreases |keys|
  {
    if i > 0 {
      CategoryRowsAt(t, keys[1..], i - 1);
    }
  }

  /** `groupby(...).order_item_id.sum()`: one row per category, categories ascending. */
  function CategoryTotals(t: seq<Record>): seq<ItemRow>
  {
    CategoryRows(t, SortedKeys(t, Category))
  }

  predicate NonIncreasing(rows: seq<ItemRow>)
  {
    forall i, j :: 0 <= i < j < |rows| ==> rows[i].itemTotal >= rows[j].itemTotal
  }

  /** The summed item counts of a list of category rows. */
  function SumTotals(rows: seq<ItemRow>): int
  {
    if |rows| == 0 then 0 else rows[0].itemTotal + SumTotals(rows[1..])
  }

  /** Puts `x` into a ranked list in front of the first row with a smaller sum. */
  function InsertByTotal(x: ItemRow, s: seq<ItemRow>): (r: seq<ItemRow>)
    requires NonIncreasing(s)
    ensures forall y :: y in r ==> y == x || y in s
    ensures NonIncreasing(r)
  {
    if |s| == 0 then [x]
    else if x.itemTotal >= s[0].itemTotal then [x] + s
    else
      var rest := InsertByTotal(x, s[1..]);
      var r := [s[0]] + rest;
      forall j | 0 < j < |r| ensures r[j].itemTotal <= s[0].itemTotal {
        assert r[j] == rest[j - 1] && rest[j - 1] in rest;
        if r[j] != x {
          var k :| 0 <= k < |s[1..]| && s[1..][k] == r[j];
          assert s[k + 1] == r[j];
        }
      }
      r
  }

  /** Inserting adds exactly `x` to the rows. */
  lemma {:induction false} InsertByTotalPermutes(x: ItemRow, s: seq<ItemRow>)
    requires NonIncreasing(s)
    ensures multiset(InsertByTotal(x, s)) == multiset(s) + multiset{x}
    decreases |s|
  {
    if |s| > 0 && x.itemTotal < s[0].itemTotal {
      InsertByTotalPermutes(x, s[1..]);
      assert s == [s[0]] + s[1..];
    }
  }

  lemma {:induction false} InsertByTotalSum(x: ItemRow, s: seq<ItemRow>)
    requires NonIncreasing(s)
    ensures SumTotals(InsertByTotal(x, s)) == x.itemTotal + SumTotals(s)
    decreases |s|
  {
    if |s| > 0 {
      if x.itemTotal >= s[0].itemTotal {
        assert ([x] + s)[1..] == s;
      } else {
        InsertByTotalSum(x, s[1..]);
        var rest := InsertByTotal(x, s[1..]);
        assert ([s[0]] + rest)[1..] == rest;
      }
    }
  }

  /** `sort_values(ascending=False)`: the rows ranked by their sums, largest first. */
  function SortByTotal(rows: seq<ItemRow>): (r: seq<ItemRow>)
    ensures NonIncreasing(r)
    ensures multiset(r) == multiset(rows)
  {
    if |rows| == 0 then []
    else
      assert rows == [rows[0]] + rows[1..];
      InsertByTotalPermutes(rows[0], SortByTotal(rows[1..]));
      InsertByTotal(rows[0], SortByTotal(rows[1..]))
  }

  /** Ranking keeps the sum of the rows. */
  lemma {:induction false} SortByTotalSum(rows: seq<ItemRow>)
    ensures SumTotals(SortByTotal(rows)) == SumTotals(rows)
    decreases |rows|
  {
    if |rows| > 0 {
      SortByTotalSum(rows[1..]);
      InsertByTotalSum(rows[0], SortByTotal(rows[1..]));
    }
  }

  /** The dashboard's product-performance table. */
  function CreateSumOrderItems(t: seq<Record>): seq<ItemRow>
  {
    SortByTotal(CategoryTotals(t))
  }

  /** Every row of a category-total list is that category's group total. */
  lemma CategoryTotalsRows(t: seq<Record>, y: ItemRow)
    requires y in CategoryTotals(t)
    ensures y == CategoryRow(t, y.category)
    ensures y.category in Values(t, Category)
  {
    var keys := SortedKeys(t, Category);
    var i :| 0 <= i < |keys| && CategoryTotals(t)[i] == y;
    CategoryRowsAt(t, keys, i);
  }

  /** A list whose rows all differ holds each row once. */
  lemma {:induction false} DistinctOnce(s: seq<ItemRow>, y: ItemRow)
    requires forall i, j :: 0 <= i < j < |s| ==> s[i] != s[j]
    ensures multiset(s)[y] <= 1
    decreases |s|
  {
    if |s| > 0 {
      assert s == [s[0]] + s[1..];
      DistinctOnce(s[1..], y);
      if s[0] == y {
        assert y !in s[1..];
      }
    }
  }

  /** A row at two positions is held twice. */
  lemma TwoCopies(s: seq<ItemRow>, i: int, j: int)
    requires 0 <= i < j < |s| && s[i] == s[j]
    ensures multiset(s)[s[i]] >= 2
  {
    assert s == s[..j] + s[j..];
    assert s[i] in s[..j];
    assert s[j] in s[j..];
  }

  /** Every ranked row is the group total of a category present in the table. */
  lemma RankedRowsAreGroups(t: seq<Record>)
    ensures var r := CreateSumOrderItems(t);
      forall i :: 0 <= i < |r| ==>
        && r[i] == CategoryRow(t, r[i].category)
        && exists x :: x in t && x.category == r[i].category
  {
    var r := CreateSumOrderItems(t);
    ValuesMember(t, Category);
    forall i | 0 <= i < |r|
      ensures r[i] == CategoryRow(t, r[i].category)
      ensures exists x :: x in t && x.category == r[i].category
    {
      assert r[i] in multiset(CategoryTotals(t));
      CategoryTotalsRows(t, r[i]);
      var x :| x in t && Get(x, Category) == r[i].category;
    }
  }

  /** Every category present in the table has a ranked row. */
  lemma RankedRowsCover(t: seq<Record>)
    ensures var r := CreateSumOrderItems(t);
      forall x :: x in t ==> exists i :: 0 <= i < |r| && r[i].category == x.category
  {
    var g := CategoryTotals(t);
    var r := CreateSumOrderItems(t);
    var keys := SortedKeys(t, Category);
    ValuesMember(t, Category);
    forall x | x in t ensures exists i :: 0 <= i < |r| && r[i].category == x.category {
      assert Get(x, Category) in Values(t, Category);
      var k :| 0 <= k < |keys| && keys[k] == x.category;
      assert g[k] in multiset(r);
    }
  }

  /** No category is ranked twice. */
  lemma RankedRowsDistinct(t: seq<Record>)
    ensures var r := CreateSumOrderItems(t);
      forall i, j :: 0 <= i < j < |r| ==> r[i].category != r[j].category
  {
    var g := CategoryTotals(t);
    var r := CreateSumOrderItems(t);
    var keys := SortedKeys(t, Category);
    RankedRowsAreGroups(t);
    forall a, b | 0 <= a < b < |g| ensures g[a] != g[b] {
      AscendingDistinct(keys, a, b);
    }
    forall i, j | 0 <= i < j < |r| ensures r[i].category != r[j].category {
      if r[i].category == r[j].category {
        TwoCopies(r, i, j);
        DistinctOnce(g, r[i]);
      }
    }
  }

  /**
   * The ranked table has exactly one row per category present, each holding
   * the sum of the item counts of that category's rows, largest sums first.
   */
  lemma SumOrderItemsGroups(t: seq<Record>)
    ensures var r := CreateSumOrderItems(t);
      && NonIncreasing(r)
      && (forall i :: 0 <= i < |r| ==> r[i].itemTotal == Total(Group(t, Category, r[i].category), Items))
      && (forall i :: 0 <= i < |r| ==> exists x :: x in t && x.category == r[i].category)
      && (forall x :: x in t ==> exists i :: 0 <= i < |r| && r[i].category == x.category)
      && (forall i, j :: 0 <= i < j < |r| ==> r[i].category != r[j].category)
  {
    RankedRowsAreGroups(t);
    RankedRowsCover(t);
    RankedRowsDistinct(t);
  }

  lemma {:induction false} CategoryRowsSum(t: seq<Record>, keys: seq<string>)
    ensures SumTotals(CategoryRows(t, keys)) == KeyedTotal(t, Category, keys, Items)
    decreases |keys|
  {
    if |keys| > 0 {
      CategoryRowsSum(t, keys[1..]);
      assert ([CategoryRow(t, keys[0])] + CategoryRows(t, keys[1..]))[1..] == CategoryRows(t, keys[1..]);
    }
  }

  /** The ranked category sums add up to the item count summed over the whole table. */
  lemma SumOrderItemsTotal(t: seq<Record>)
    ensures SumTotals(CreateSumOrderItems(t)) == Total(t, Items)
  {
    var keys := SortedKeys(t, Category);
    CategoryRowsSum(t, keys);
    SortByTotalSum(CategoryTotals(t));
    ValuesMember(t, Category);
    KeyedTotalCovers(t, Category, keys, Items);
  }

  /** The ranked table does not depend on the order of the input rows. */
  lemma SumOrderItemsOrderFree(t1: seq<Record>, t2: seq<Record>)
    requires multiset(t1) == multiset(t2)
    ensures CreateSumOrderItems(t1) == CreateSumOrderItems(t2)
  {
    SameRows(t1, t2);
    SortedKeysOrderFree(t1, t2, Category);
    var keys := SortedKeys(t1, Category);
    var g1, g2 := CategoryTotals(t1), CategoryTotals(t2);
    forall i | 0 <= i < |keys| ensures g1[i] == g2[i] {
      CategoryRowsAt(t1, keys, i);
      CategoryRowsAt(t2, keys, i);
      GroupPermutation(t1, t2, Category, keys[i]);
      TotalPermutation(Group(t1, Category, keys[i]), Group(t2, Category, keys[i]), Items);
    }
    assert g1 == g2;
  }
}
