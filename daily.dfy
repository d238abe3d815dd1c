/**
 * `create_daily_orders_df`: the table resampled to calendar days. Every day
 * from the first purchase day to the last gets one row, days without
 * purchases included, holding the number of distinct orders and the summed
 * payments of that day.
 */
module DailyOrders {
  import opened Table

  datatype DailyRow = DailyRow(date: int, orderCount: nat, revenue: int)

  /** The row of one resample bin: `nunique` of the order ids, `sum` of the payments. */
  function DayRow(t: seq<Record>, date: int): DailyRow
  {
    var g := DayGroup(t, date);
    DailyRow(date, |Values(g, OrderId)|, Total(g, Payment))
  }

  /** The rows of `n` consecutive days starting with `first`. */
  function DayRows(t: seq<Record>, first: int, n: nat): (r: seq<DailyRow>)
    ensures |r| == n
    ensures forall i :: 0 <= i < n ==> r[i] == DayRow(t, first + i)
    decreases n
  {
    if n == 0 then [] else [DayRow(t, first)] + DayRows(t, first + 1, n - 1)
  }

  /** The bins of every day from the day of timestamp `lo` to the day of timestamp `hi`. */
  function DaySpan(t: seq<Record>, lo: int, hi: int): seq<DailyRow>
    requires lo <= hi
  {
    DayMonotone(lo, hi);
    DayRows(t, Day(lo), Day(hi) - Day(lo) + 1)
  }

  /** `resample(rule="D")`: one row per day from the earliest purchase day to the latest. */
  function CreateDailyOrders(t: seq<Record>): seq<DailyRow>
  {
    if |t| == 0 then []
    else
      assert t[0] in t;
      DaySpan(t, MinTimestamp(t), MaxTimestamp(t))
  }

  /** A non-empty table's daily rows are the bins from its first purchase day to its last. */
  lemma DailyOrdersUnfold(t: seq<Record>)
    requires |t| > 0
    ensures MinTimestamp(t) <= MaxTimestamp(t)
    ensures CreateDailyOrders(t) == DaySpan(t, MinTimestamp(t), MaxTimestamp(t))
  {
    assert t[0] in t;
  }

  /** The span of the bins does not depend on the order of the input rows. */
  lemma DaySpanOrderFree(t1: seq<Record>, t2: seq<Record>, lo: int, hi: int)
    requires multiset(t1) == multiset(t2)
    requires lo <= hi
    ensures DaySpan(t1, lo, hi) == DaySpan(t2, lo, hi)
  {
    DayMonotone(lo, hi);
    DayRowsOrderFree(t1, t2, Day(lo), Day(hi) - Day(lo) + 1);
  }

  /**
   * An empty table gives no rows; otherwise the rows run over consecutive
   * days, the first and the last of them purchase days, and every purchase
   * falls on one of them.
   */
  lemma DailyOrdersSpan(t: seq<Record>)
    ensures var r := CreateDailyOrders(t);
      && (|r| == 0 <==> |t| == 0)
      && (forall i :: 0 <= i < |r| ==> r[i].date == r[0].date + i)
      && (|r| > 0 ==> exists x :: x in t && Day(x.timestamp) == r[0].date)
      && (|r| > 0 ==> exists x :: x in t && Day(x.timestamp) == r[|r| - 1].date)
      && (forall x :: x in t ==> |r| > 0 && r[0].date <= Day(x.timestamp) <= r[|r| - 1].date)
  {
    if |t| > 0 {
      var lo, hi := MinTimestamp(t), MaxTimestamp(t);
      var first, last := Day(lo), Day(hi);
      DayMonotone(lo, hi);
      forall x | x in t ensures first <= Day(x.timestamp) <= last {
        DayMonotone(lo, x.timestamp);
        DayMonotone(x.timestamp, hi);
      }
      DailyOrdersUnfold(t);
      var r := CreateDailyOrders(t);
      assert r[0].date == first && r[|r| - 1].date == last;
    }
  }

  /** Each row summarises exactly the purchases of its own day. */
  lemma DailyOrdersRows(t: seq<Record>)
    ensures var r := CreateDailyOrders(t);
      forall i :: 0 <= i < |r| ==> r[i] == DayRow(t, r[0].date + i)
  {
  }

  /** The distinct order ids purchased on `date`, written as a set comprehension. */
  function OrdersOn(t: seq<Record>, date: int): set<string>
  {
    set x | x in t && Day(x.timestamp) == date :: x.orderId
  }

  /** A day's order count is the number of distinct order ids of that day's rows. */
  lemma DayOrderCount(t: seq<Record>, d: int)
    ensures DayRow(t, d).orderCount == |OrdersOn(t, d)|
    ensures DayRow(t, d).orderCount <= |DayGroup(t, d)|
  {
    var g := DayGroup(t, d);
    DayGroupMember(t, d);
    ValuesMember(g, OrderId);
    assert Values(g, OrderId) == OrdersOn(t, d);
    ValuesBound(g, OrderId);
  }

  /** A day has no orders exactly when nothing was purchased that day, and then no revenue. */
  lemma DayWithoutOrders(t: seq<Record>, d: int)
    ensures DayRow(t, d).orderCount == 0 <==> forall x :: x in t ==> Day(x.timestamp) != d
    ensures DayRow(t, d).orderCount == 0 ==> DayRow(t, d).revenue == 0
  {
    var g := DayGroup(t, d);
    DayGroupMember(t, d);
    ValuesBound(g, OrderId);
    if |g| > 0 {
      assert g[0] in g;
    }
  }

  /**
   * Row `i` is the `i`-th day after the first. Each day's order count is the number of distinct order ids purchased
   * that day, never more than that day's rows, and zero exactly when nothing
   * was purchased that day; its revenue is the sum of that day's payments,
   * zero on a day without orders.
   */
  lemma DailyRowMeaning(t: seq<Record>, i: int)
    requires 0 <= i < |CreateDailyOrders(t)|
    ensures var row := CreateDailyOrders(t)[i];
      && row.date == CreateDailyOrders(t)[0].date + i
      && row.orderCount == |OrdersOn(t, row.date)|
      && row.orderCount <= |DayGroup(t, row.date)|
      && row.revenue == Total(DayGroup(t, row.date), Payment)
      && (row.orderCount == 0 <==> forall x :: x in t ==> Day(x.timestamp) != row.date)
      && (row.orderCount == 0 ==> row.revenue == 0)
  {
    var row := CreateDailyOrders(t)[i];
    DailyOrdersRows(t);
    assert row == DayRow(t, row.date);
    DayOrderCount(t, row.date);
    DayWithoutOrders(t, row.date);
  }

  /** The summed revenue of a list of daily rows. */
  function SumRevenue(rows: seq<DailyRow>): int
  {
    if |rows| == 0 then 0 else rows[0].revenue + SumRevenue(rows[1..])
  }

  /** What row `x` adds to the revenue of the days `first` .. `first + n - 1`. */
  function DayShare(x: Record, first: int, n: nat): int
  {
    if first <= Day(x.timestamp) < first + n then x.payment else 0
  }

  lemma {:induction false} NoRowsNoRevenue(first: int, n: nat)
    ensures SumRevenue(DayRows([], first, n)) == 0
    decreases n
  {
    if n > 0 {
      NoRowsNoRevenue(first + 1, n - 1);
    }
  }

  /** Taking the first row off the table takes its payment off its own day's revenue. */
  lemma DayRevenueSplit(t: seq<Record>, d: int)
    requires |t| > 0
    ensures DayRow(t, d).revenue == DayShare(t[0], d, 1) + DayRow(t[1..], d).revenue
  {
    if Day(t[0].timestamp) == d {
      TotalCons(t[0], DayGroup(t[1..], d), Payment);
    }
  }

  /** Taking the first row off the table takes its payment off the day span's revenue. */
  lemma {:induction false} RevenueSplit(t: seq<Record>, first: int, n: nat)
    requires |t| > 0
    ensures SumRevenue(DayRows(t, first, n)) == DayShare(t[0], first, n) + SumRevenue(DayRows(t[1..], first, n))
    decreases n
  {
    if n > 0 {
      RevenueSplit(t, first + 1, n - 1);
      DayRevenueSplit(t, first);
      var a, b := DayRows(t, first + 1, n - 1), DayRows(t[1..], first + 1, n - 1);
      assert ([DayRow(t, first)] + a)[1..] == a;
      assert ([DayRow(t[1..], first)] + b)[1..] == b;
    }
  }

  /** The revenue of a day span that holds every purchase is the table's total payment. */
  lemma {:induction false} RevenueCovers(t: seq<Record>, first: int, n: nat)
    requires forall x :: x in t ==> first <= Day(x.timestamp) < first + n
    ensures SumRevenue(DayRows(t, first, n)) == Total(t, Payment)
    decreases |t|
  {
    if |t| == 0 {
      NoRowsNoRevenue(first, n);
    } else {
      RevenueSplit(t, first, n);
      assert forall x :: x in t[1..] ==> x in t;
      RevenueCovers(t[1..], first, n);
    }
  }

  /**
   * The total revenue the dashboard shows, the sum of the daily revenues,
   * is the sum of all payments of the filtered table.
   */
  lemma DailyRevenueTotal(t: seq<Record>)
    ensures SumRevenue(CreateDailyOrders(t)) == Total(t, Payment)
  {
    if |t| > 0 {
      var r := CreateDailyOrders(t);
      var first, last := r[0].date, r[|r| - 1].date;
      assert r == DayRows(t, first, |r|);
      RevenueCovers(t, first, |r|);
    }
  }

  /** One day's bin depends only on which rows the table holds, with their repetitions. */
  lemma DayRowOrderFree(t1: seq<Record>, t2: seq<Record>, d: int)
    requires multiset(t1) == multiset(t2)
    ensures DayRow(t1, d) == DayRow(t2, d)
  {
    var g1, g2 := DayGroup(t1, d), DayGroup(t2, d);
    DayGroupPermutation(t1, t2, d);
    TotalPermutation(g1, g2, Payment);
    SameRows(g1, g2);
    ValuesOrderFree(g1, g2, OrderId);
  }

  lemma {:induction false} DayRowsOrderFree(t1: seq<Record>, t2: seq<Record>, first: int, n: nat)
    requires multiset(t1) == multiset(t2)
    ensures DayRows(t1, first, n) == DayRows(t2, first, n)
    decreases n
  {
    if n > 0 {
      DayRowOrderFree(t1, t2, first);
      DayRowsOrderFree(t1, t2, first + 1, n - 1);
    }
  }

  /** The daily table does not depend on the order of the input rows. */
  lemma DailyOrdersOrderFree(t1: seq<Record>, t2: seq<Record>)
    requires multiset(t1) == multiset(t2)
    ensures CreateDailyOrders(t1) == CreateDailyOrders(t2)
  {
    SameRows(t1, t2);
    if |t1| > 0 {
      ExtremaOrderFree(t1, t2);
      DailyOrdersUnfold(t1);
      DailyOrdersUnfold(t2);
      DaySpanOrderFree(t1, t2, MinTimestamp(t1), MaxTimestamp(t1));
    } else {
      assert |t2| == 0;
    }
  }
}
