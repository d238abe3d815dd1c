/**
 * `create_bygender_df`, `create_byage_df` and `create_bystate_df`: the
 * number of distinct customers per customer state or per customer city.
 * Despite their names, the first groups by state and the second by city;
 * the first and the third are the same computation. All three are one
 * operation here, parameterised by the column grouped on.
 */
module Customers {
  import opened StrOrder
  import opened Table
  import opened Keys

  datatype CountRow = CountRow(key: string, customerCount: nat)

  /** The row of one group: `customer_id.nunique()`. */
  function KeyRow(t: seq<Record>, f: Field, k: string): CountRow
  {
    CountRow(k, |Values(Group(t, f, k), CustomerId)|)
  }

  function KeyRows(t: seq<Record>, f: Field, keys: seq<string>): (r: seq<CountRow>)
    ensures |r| == |keys|
    ensures forall i :: 0 <= i < |keys| ==> r[i].key == keys[i]
  {
    if |keys| == 0 then [] else [KeyRow(t, f, keys[0])] + KeyRows(t, f, keys[1..])
  }

  lemma {:induction false} KeyRowsAt(t: seq<Record>, f: Field, keys: seq<string>, i: int)
    requires 0 <= i < |keys|
    ensures KeyRows(t, f, keys)[i] == KeyRow(t, f, keys[i])
    decreases |keys|
  {
    if i > 0 {
      KeyRowsAt(t, f, keys[1..], i - 1);
    }
  }

  /** `df.groupby(by=f).customer_id.nunique().reset_index()`, keys ascending. */
  function CustomerCountBy(t: seq<Record>, f: Field): seq<CountRow>
  {
    KeyRows(t, f, SortedKeys(t, f))
  }

  /** Customers per state (the source's `create_bygender_df`). */
  function CreateByGender(t: seq<Record>): seq<CountRow>
  {
    CustomerCountBy(t, State)
  }

  /** Customers per city (the source's `create_byage_df`). */
  function CreateByAge(t: seq<Record>): seq<CountRow>
  {
    CustomerCountBy(t, City)
  }

  /** Customers per state (the source's `create_bystate_df`). */
  function CreateByState(t: seq<Record>): seq<CountRow>
  {
    CustomerCountBy(t, State)
  }

  /** Every row's key is held by some row of the table. */
  lemma CustomerKeysPresent(t: seq<Record>, f: Field)
    ensures var r := CustomerCountBy(t, f);
      forall i :: 0 <= i < |r| ==> exists x :: x in t && Get(x, f) == r[i].key
  {
    var keys := SortedKeys(t, f);
    var r := CustomerCountBy(t, f);
    ValuesMember(t, f);
    forall i | 0 <= i < |r| ensures exists x :: x in t && Get(x, f) == r[i].key {
      assert keys[i] in Values(t, f);
    }
  }

  /** Every key the table holds has a row. */
  lemma CustomerKeysCovered(t: seq<Record>, f: Field)
    ensures var r := CustomerCountBy(t, f);
      forall x :: x in t ==> exists i :: 0 <= i < |r| && r[i].key == Get(x, f)
  {
    var keys := SortedKeys(t, f);
    var r := CustomerCountBy(t, f);
    ValuesMember(t, f);
    forall x | x in t ensures exists i :: 0 <= i < |r| && r[i].key == Get(x, f) {
      assert Get(x, f) in Values(t, f);
      var i :| 0 <= i < |keys| && keys[i] == Get(x, f);
      assert r[i].key == Get(x, f);
    }
  }

  /**
   * One row per key present in the table, keys strictly ascending, so no key
   * twice.
   */
  lemma CustomerCountKeys(t: seq<Record>, f: Field)
    ensures var r := CustomerCountBy(t, f);
      && (forall i, j :: 0 <= i < j < |r| ==> Less(r[i].key, r[j].key))
      && (forall i :: 0 <= i < |r| ==> exists x :: x in t && Get(x, f) == r[i].key)
      && (forall x :: x in t ==> exists i :: 0 <= i < |r| && r[i].key == Get(x, f))
  {
    CustomerKeysPresent(t, f);
    CustomerKeysCovered(t, f);
  }

  /**
   * Each count is the number of distinct customers with that key: at least
   * one, and at most the number of rows with that key.
   */
  lemma CustomerCountMeaning(t: seq<Record>, f: Field, i: int)
    requires 0 <= i < |CustomerCountBy(t, f)|
    ensures var row := CustomerCountBy(t, f)[i];
      && row.customerCount == |ValuesWhere(t, f, row.key, CustomerId)|
      && 1 <= row.customerCount <= |Group(t, f, row.key)|
  {
    var keys := SortedKeys(t, f);
    var row := CustomerCountBy(t, f)[i];
    KeyRowsAt(t, f, keys, i);
    var g := Group(t, f, row.key);
    GroupMember(t, f, row.key);
    GroupValues(t, f, row.key, CustomerId);
    ValuesMember(t, f);
    assert keys[i] in Values(t, f);
    var x :| x in t && Get(x, f) == row.key;
    assert x in g;
    ValuesBound(g, CustomerId);
  }

  /** One group's count depends only on which rows the table holds. */
  lemma KeyRowOrderFree(t1: seq<Record>, t2: seq<Record>, f: Field, k: string)
    requires forall x :: x in t1 <==> x in t2
    ensures KeyRow(t1, f, k) == KeyRow(t2, f, k)
  {
    GroupValues(t1, f, k, CustomerId);
    GroupValues(t2, f, k, CustomerId);
    assert ValuesWhere(t1, f, k, CustomerId) == ValuesWhere(t2, f, k, CustomerId);
  }

  /**
   * The result depends only on which rows the table holds, not on their
   * order or on how often a row is repeated.
   */
  lemma CustomerCountOrderFree(t1: seq<Record>, t2: seq<Record>, f: Field)
    requires forall x :: x in t1 <==> x in t2
    ensures CustomerCountBy(t1, f) == CustomerCountBy(t2, f)
  {
    SortedKeysOrderFree(t1, t2, f);
    var keys := SortedKeys(t1, f);
    forall k | k in keys ensures KeyRow(t1, f, k) == KeyRow(t2, f, k) {
      KeyRowOrderFree(t1, t2, f, k);
    }
    var r1, r2 := CustomerCountBy(t1, f), CustomerCountBy(t2, f);
    assert |r1| == |r2|;
    forall i | 0 <= i < |r1| ensures r1[i] == r2[i] {
      assert keys[i] in keys;
      KeyRowsAt(t1, f, keys, i);
      KeyRowsAt(t2, f, keys, i);
    }
  }

  /** The per-gender view and the per-state view are the same table. */
  lemma ByGenderIsByState(t: seq<Record>)
    ensures CreateByGender(t) == CreateByState(t)
  {
  }
}
