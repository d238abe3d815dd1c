/**
 * `create_rfm_df`: one row per customer with their recency, frequency and
 * monetary value. Recency is measured from the latest purchase date of the
 * whole (filtered) table, computed once per call, to the customer's own
 * latest purchase date, in whole days.
 */
module Rfm {
  import opened StrOrder
  import opened Table
  import opened Keys

  datatype RfmRow = RfmRow(customerId: string, frequency: nat, monetary: int, recency: int)

  /**
   * The row of customer `c`: `nunique` of their order ids, `sum` of their
   * payments, and the days from the date of their latest purchase timestamp
   * to `recentDate`.
   */
  function CustomerRow(t: seq<Record>, c: string, recentDate: int): RfmRow
    requires |Group(t, CustomerId, c)| > 0
  {
    var g := Group(t, CustomerId, c);
    RfmRow(c, |Values(g, OrderId)|, Total(g, Payment), recentDate - Day(MaxTimestamp(g)))
  }

  function RfmRows(t: seq<Record>, keys: seq<string>, recentDate: int): (r: seq<RfmRow>)
    requires forall k :: k in keys ==> |Group(t, CustomerId, k)| > 0
    ensures |r| == |keys|
    ensures forall i :: 0 <= i < |keys| ==> r[i].customerId == keys[i]
  {
    if |keys| == 0 then []
    else [CustomerRow(t, keys[0], recentDate)] + RfmRows(t, keys[1..], recentDate)
  }

  lemma {:induction false} RfmRowsAt(t: seq<Record>, keys: seq<string>, recentDate: int, i: int)
    requires forall k :: k in keys ==> |Group(t, CustomerId, k)| > 0
    requires 0 <= i < |keys|
    ensures RfmRows(t, keys, recentDate)[i] == CustomerRow(t, keys[i], recentDate)
    decreases |keys|
  {
    if i > 0 {
      RfmRowsAt(t, keys[1..], recentDate, i - 1);
    }
  }

  /** Every customer of the table has at least one row. */
  lemma CustomersHaveRows(t: seq<Record>)
    ensures forall k :: k in SortedKeys(t, CustomerId) ==> |Group(t, CustomerId, k)| > 0
  {
    ValuesMember(t, CustomerId);
    forall k | k in SortedKeys(t, CustomerId) ensures |Group(t, CustomerId, k)| > 0 {
      var x :| x in t && Get(x, CustomerId) == k;
      GroupMember(t, CustomerId, k);
      assert x in Group(t, CustomerId, k);
    }
  }

  /** `groupby(by="customer_id").agg(...)`, customers ascending, recency against `dt.date.max()`. */
  function CreateRfm(t: seq<Record>): seq<RfmRow>
  {
    if |t| == 0 then []
    else
      CustomersHaveRows(t);
      RfmRows(t, SortedKeys(t, CustomerId), MaxDay(t))
  }

  /** Every row's customer has purchases in the table. */
  lemma RfmCustomersPresent(t: seq<Record>)
    ensures var r := CreateRfm(t);
      forall i :: 0 <= i < |r| ==> exists x :: x in t && x.customerId == r[i].customerId
  {
    if |t| > 0 {
      var keys := SortedKeys(t, CustomerId);
      var r := CreateRfm(t);
      ValuesMember(t, CustomerId);
      forall i | 0 <= i < |r| ensures exists x :: x in t && x.customerId == r[i].customerId {
        assert keys[i] in Values(t, CustomerId);
        var x :| x in t && Get(x, CustomerId) == keys[i];
      }
    }
  }

  /** Every customer of the table has a row. */
  lemma RfmCustomersCovered(t: seq<Record>)
    ensures var r := CreateRfm(t);
      forall x :: x in t ==> exists i :: 0 <= i < |r| && r[i].customerId == x.customerId
  {
    if |t| > 0 {
      var keys := SortedKeys(t, CustomerId);
      var r := CreateRfm(t);
      ValuesMember(t, CustomerId);
      forall x | x in t ensures exists i :: 0 <= i < |r| && r[i].customerId == x.customerId {
        assert Get(x, CustomerId) in Values(t, CustomerId);
        var i :| 0 <= i < |keys| && keys[i] == x.customerId;
        assert r[i].customerId == x.customerId;
      }
    }
  }

  /** The rows follow the customers in strictly ascending order. */
  lemma RfmCustomersAscending(t: seq<Record>)
    ensures var r := CreateRfm(t);
      forall i, j :: 0 <= i < j < |r| ==> Less(r[i].customerId, r[j].customerId)
  {
    if |t| > 0 {
      var keys := SortedKeys(t, CustomerId);
      CustomersHaveRows(t);
      var r := RfmRows(t, keys, MaxDay(t));
      assert CreateRfm(t) == r;
      forall i, j | 0 <= i < j < |r| ensures Less(r[i].customerId, r[j].customerId) {
        assert r[i].customerId == keys[i] && r[j].customerId == keys[j];
      }
    }
  }

  /** One row per customer present in the table, customers strictly ascending. */
  lemma RfmCustomers(t: seq<Record>)
    ensures var r := CreateRfm(t);
      && (forall i, j :: 0 <= i < j < |r| ==> Less(r[i].customerId, r[j].customerId))
      && (forall i :: 0 <= i < |r| ==> exists x :: x in t && x.customerId == r[i].customerId)
      && (forall x :: x in t ==> exists i :: 0 <= i < |r| && r[i].customerId == x.customerId)
  {
    RfmCustomersAscending(t);
    RfmCustomersPresent(t);
    RfmCustomersCovered(t);
  }

  /** A customer's frequency is their number of distinct orders, at least one. */
  lemma CustomerFrequency(t: seq<Record>, c: string, recentDate: int)
    requires |Group(t, CustomerId, c)| > 0
    ensures var row := CustomerRow(t, c, recentDate);
      row.frequency == |ValuesWhere(t, CustomerId, c, OrderId)| && row.frequency >= 1
  {
    var g := Group(t, CustomerId, c);
    GroupMember(t, CustomerId, c);
    GroupValues(t, CustomerId, c, OrderId);
    ValuesBound(g, OrderId);
  }

  /** A customer's recency counts back from `recentDate` to their latest purchase day. */
  lemma CustomerRecency(t: seq<Record>, c: string, recentDate: int)
    requires |Group(t, CustomerId, c)| > 0
    ensures var row := CustomerRow(t, c, recentDate);
      && (exists x :: x in t && x.customerId == c && Day(x.timestamp) == recentDate - row.recency)
      && (forall x :: x in t && x.customerId == c ==> Day(x.timestamp) <= recentDate - row.recency)
  {
    var g := Group(t, CustomerId, c);
    GroupMember(t, CustomerId, c);
    DayOfMaxTimestamp(g);
    var d := MaxDay(g);
    assert recentDate - CustomerRow(t, c, recentDate).recency == d;
    var y :| y in g && Day(y.timestamp) == d;
    assert y in t && y.customerId == c;
  }

  /**
   * A customer's row: frequency is their number of distinct orders, at least
   * one; monetary is the sum of their payments; recency is the number of days
   * from their latest purchase date to the latest purchase date of the whole
   * table, never negative.
   */
  lemma RfmRowMeaning(t: seq<Record>, i: int)
    requires 0 <= i < |CreateRfm(t)|
    ensures var row := CreateRfm(t)[i];
      && |t| > 0
      && row.frequency == |ValuesWhere(t, CustomerId, row.customerId, OrderId)|
      && row.frequency >= 1
      && row.monetary == Total(Group(t, CustomerId, row.customerId), Payment)
      && row.recency >= 0
      && (exists x :: x in t && x.customerId == row.customerId && Day(x.timestamp) == MaxDay(t) - row.recency)
      && (forall x :: x in t && x.customerId == row.customerId ==> Day(x.timestamp) <= MaxDay(t) - row.recency)
  {
    var keys := SortedKeys(t, CustomerId);
    CustomersHaveRows(t);
    RfmRowsAt(t, keys, MaxDay(t), i);
    CustomerFrequency(t, keys[i], MaxDay(t));
    CustomerRecency(t, keys[i], MaxDay(t));
  }

  /** On a non-empty table some customer has recency zero. */
  lemma RfmRecencyZero(t: seq<Record>)
    requires |t| > 0
    ensures exists i :: 0 <= i < |CreateRfm(t)| && CreateRfm(t)[i].recency == 0
  {
    var r := CreateRfm(t);
    var x :| x in t && Day(x.timestamp) == MaxDay(t);
    RfmCustomersCovered(t);
    var i :| 0 <= i < |r| && r[i].customerId == x.customerId;
    RfmRowMeaning(t, i);
  }

  /** The summed monetary values of a list of RFM rows. */
  function SumMonetary(rows: seq<RfmRow>): int
  {
    if |rows| == 0 then 0 else rows[0].monetary + SumMonetary(rows[1..])
  }

  lemma {:induction false} RfmRowsSum(t: seq<Record>, keys: seq<string>, recentDate: int)
    requires forall k :: k in keys ==> |Group(t, CustomerId, k)| > 0
    ensures SumMonetary(RfmRows(t, keys, recentDate)) == KeyedTotal(t, CustomerId, keys, Payment)
    decreases |keys|
  {
    if |keys| > 0 {
      RfmRowsSum(t, keys[1..], recentDate);
      var rest := RfmRows(t, keys[1..], recentDate);
      assert ([CustomerRow(t, keys[0], recentDate)] + rest)[1..] == rest;
    }
  }

  /** The customers' monetary values add up to the payments of the whole table. */
  lemma RfmMonetaryTotal(t: seq<Record>)
    ensures SumMonetary(CreateRfm(t)) == Total(t, Payment)
  {
    if |t| > 0 {
      var keys := SortedKeys(t, CustomerId);
      CustomersHaveRows(t);
      RfmRowsSum(t, keys, MaxDay(t));
      ValuesMember(t, CustomerId);
      KeyedTotalCovers(t, CustomerId, keys, Payment);
    }
  }

  /** One customer's row depends only on which rows the table holds, with their repetitions. */
  lemma CustomerRowOrderFree(t1: seq<Record>, t2: seq<Record>, c: string, recentDate: int)
    requires multiset(t1) == multiset(t2)
    requires |Group(t1, CustomerId, c)| > 0
    ensures |Group(t2, CustomerId, c)| > 0
    ensures CustomerRow(t1, c, recentDate) == CustomerRow(t2, c, recentDate)
  {
    var g1, g2 := Group(t1, CustomerId, c), Group(t2, CustomerId, c);
    GroupPermutation(t1, t2, CustomerId, c);
    SameRows(g1, g2);
    TotalPermutation(g1, g2, Payment);
    ValuesOrderFree(g1, g2, OrderId);
    ExtremaOrderFree(g1, g2);
  }

  /** The RFM table does not depend on the order of the input rows. */
  lemma RfmOrderFree(t1: seq<Record>, t2: seq<Record>)
    requires multiset(t1) == multiset(t2)
    ensures CreateRfm(t1) == CreateRfm(t2)
  {
    SameRows(t1, t2);
    if |t1| > 0 {
      SortedKeysOrderFree(t1, t2, CustomerId);
      ExtremaOrderFree(t1, t2);
      CustomersHaveRows(t1);
      CustomersHaveRows(t2);
      var keys, d := SortedKeys(t1, CustomerId), MaxDay(t1);
      var r1, r2 := CreateRfm(t1), CreateRfm(t2);
      forall i | 0 <= i < |keys| ensures r1[i] == r2[i] {
        RfmRowsAt(t1, keys, d, i);
        RfmRowsAt(t2, keys, d, i);
        CustomerRowOrderFree(t1, t2, keys[i], d);
      }
    }
  }
}
