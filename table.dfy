/**
 * The in-memory order-line table the dashboard works on, and the
 * column-level reductions every summary is built from: selecting a group,
 * the set of distinct values of a column, sums, and maxima and minima of
 * the purchase timestamp.
 */
module Table {

  /**
   * One row of the cleaned extract. `payment` is the payment value in cents,
   * `itemCount` the `order_item_id` column, and `timestamp` the purchase time
   * in seconds since the epoch.
   */
  datatype Record = Record(
    orderId: string,
    customerId: string,
    category: string,
    itemCount: int,
    payment: int,
    timestamp: int,
    city: string,
    state: string)

  /** The text columns a summary groups by or counts distinct values of. */
  datatype Field = OrderId | CustomerId | Category | City | State

  /** The numeric columns a summary adds up. */
  datatype Measure = Payment | Items

  function Get(x: Record, f: Field): string
  {
    match f
    case OrderId => x.orderId
    case CustomerId => x.customerId
    case Category => x.category
    case City => x.city
    case State => x.state
  }

  function Value(x: Record, m: Measure): int
  {
    match m
    case Payment => x.payment
    case Items => x.itemCount
  }

  /** The calendar day of a timestamp: the day whose midnight is at or before it. */
  function Day(ts: int): (d: int)
    ensures d * 86400 <= ts < d * 86400 + 86400
  {
    ts / 86400
  }

  lemma DayMonotone(a: int, b: int)
    requires a <= b
    ensures Day(a) <= Day(b)
  {
  }

  /** The rows whose column `f` equals `k`, in table order (one `groupby` group). */
  function Group(t: seq<Record>, f: Field, k: string): seq<Record>
  {
    if |t| == 0 then []
    else if Get(t[0], f) == k then [t[0]] + Group(t[1..], f, k)
    else Group(t[1..], f, k)
  }

  /** A group holds exactly the rows with its key. */
  lemma {:induction false} GroupMember(t: seq<Record>, f: Field, k: string)
    ensures |Group(t, f, k)| <= |t|
    ensures forall x :: x in Group(t, f, k) <==> x in t && Get(x, f) == k
    decreases |t|
  {
    if |t| > 0 {
      GroupMember(t[1..], f, k);
      assert forall x :: x in t <==> x == t[0] || x in t[1..];
    }
  }

  /** The rows purchased on calendar day `d`, in table order (one resample bin). */
  function DayGroup(t: seq<Record>, d: int): seq<Record>
  {
    if |t| == 0 then []
    else if Day(t[0].timestamp) == d then [t[0]] + DayGroup(t[1..], d)
    else DayGroup(t[1..], d)
  }

  /** A resample bin holds exactly the rows purchased on its day. */
  lemma {:induction false} DayGroupMember(t: seq<Record>, d: int)
    ensures |DayGroup(t, d)| <= |t|
    ensures forall x :: x in DayGroup(t, d) <==> x in t && Day(x.timestamp) == d
    decreases |t|
  {
    if |t| > 0 {
      DayGroupMember(t[1..], d);
      assert forall x :: x in t <==> x == t[0] || x in t[1..];
    }
  }

  /** The distinct values of column `f` (what `nunique` counts, and the set of group keys). */
  function Values(s: seq<Record>, f: Field): set<string>
  {
    if |s| == 0 then {} else {Get(s[0], f)} + Values(s[1..], f)
  }

  /**
   * The distinct values of column `g` over the rows whose column `f` is `k`,
   * written as a set comprehension: what `nunique` of `g` counts in the
   * group `k`.
   */
  function ValuesWhere(t: seq<Record>, f: Field, k: string, g: Field): set<string>
  {
    set x | x in t && Get(x, f) == k :: Get(x, g)
  }

  /** The distinct values are exactly the values some row holds. */
  lemma {:induction false} ValuesMember(s: seq<Record>, f: Field)
    ensures forall x :: x in s ==> Get(x, f) in Values(s, f)
    ensures forall v :: v in Values(s, f) ==> exists x :: x in s && Get(x, f) == v
    decreases |s|
  {
    if |s| > 0 {
      var rest := s[1..];
      ValuesMember(rest, f);
      assert Values(s, f) == {Get(s[0], f)} + Values(rest, f);
      forall x | x in s ensures Get(x, f) in Values(s, f) {
        if x != s[0] {
          assert x in rest;
        }
      }
      forall v | v in Values(s, f) ensures exists x :: x in s && Get(x, f) == v {
        if v == Get(s[0], f) {
          assert s[0] in s;
        } else {
          var x :| x in rest && Get(x, f) == v;
          assert x in s;
        }
      }
    }
  }

  /**
   * `nunique` of column `g` within group `k` counts the comprehension: the
   * group's distinct values are those of the rows with key `k`.
   */
  lemma GroupValues(t: seq<Record>, f: Field, k: string, g: Field)
    ensures Values(Group(t, f, k), g) == ValuesWhere(t, f, k, g)
  {
    GroupMember(t, f, k);
    ValuesMember(Group(t, f, k), g);
  }

  /** There are never more distinct values than rows, and at least one when there is a row. */
  lemma {:induction false} ValuesBound(s: seq<Record>, f: Field)
    ensures |Values(s, f)| <= |s|
    ensures |s| > 0 ==> |Values(s, f)| > 0
    decreases |s|
  {
    if |s| > 0 {
      ValuesBound(s[1..], f);
    }
  }

  /** The sum of column `m` over the rows of `s`. */
  function Total(s: seq<Record>, m: Measure): int
  {
    if |s| == 0 then 0 else Value(s[0], m) + Total(s[1..], m)
  }

  lemma TotalCons(x: Record, s: seq<Record>, m: Measure)
    ensures Total([x] + s, m) == Value(x, m) + Total(s, m)
  {
    assert ([x] + s)[1..] == s;
  }

  /** The sum over two tables laid end to end is the sum of their sums. */
  lemma {:induction false} TotalAppend(a: seq<Record>, b: seq<Record>, m: Measure)
    ensures Total(a + b, m) == Total(a, m) + Total(b, m)
    decreases |a|
  {
    if |a| == 0 {
      assert a + b == b;
    } else {
      TotalAppend(a[1..], b, m);
      assert (a + b)[1..] == a[1..] + b;
    }
  }

  /** Taking row `i` out of a table takes its value off the sum. */
  lemma TotalRemove(s: seq<Record>, i: int, m: Measure)
    requires 0 <= i < |s|
    ensures Total(s, m) == Value(s[i], m) + Total(s[..i] + s[i + 1..], m)
  {
    assert s == s[..i] + ([s[i]] + s[i + 1..]);
    TotalAppend(s[..i], [s[i]] + s[i + 1..], m);
    TotalCons(s[i], s[i + 1..], m);
    TotalAppend(s[..i], s[i + 1..], m);
  }

  /** Taking row `i` out of a table takes one copy of it out of the table's multiset. */
  lemma MultisetRemove(s: seq<Record>, i: int)
    requires 0 <= i < |s|
    ensures multiset(s[..i] + s[i + 1..]) == multiset(s) - multiset{s[i]}
  {
    assert s == s[..i] + [s[i]] + s[i + 1..];
  }

  /** `sum` does not depend on the order of the rows: tables holding the same rows sum alike. */
  lemma {:induction false} TotalPermutation(a: seq<Record>, b: seq<Record>, m: Measure)
    requires multiset(a) == multiset(b)
    ensures Total(a, m) == Total(b, m)
    decreases |a|
  {
    if |a| == 0 {
      assert |multiset(b)| == 0;
    } else {
      var x := a[0];
      assert x in multiset(b);
      assert x in b;
      var i :| 0 <= i < |b| && b[i] == x;
      var a', b' := a[1..], b[..i] + b[i + 1..];
      assert a == [x] + a';
      MultisetRemove(b, i);
      assert multiset(a') == multiset(b');
      TotalPermutation(a', b', m);
      TotalRemove(b, i, m);
      assert Total(a, m) == Value(x, m) + Total(a', m);
    }
  }

  /** Tables with the same multiset of rows have the same rows and length. */
  lemma SameRows(t1: seq<Record>, t2: seq<Record>)
    requires multiset(t1) == multiset(t2)
    ensures |t1| == |t2|
    ensures forall x :: x in t1 <==> x in t2
  {
    assert |t1| == |multiset(t1)| == |multiset(t2)| == |t2|;
    assert forall x :: x in t1 <==> x in multiset(t1);
    assert forall x :: x in t2 <==> x in multiset(t2);
  }

  /** A group holds every copy of each row with its key, and nothing else. */
  lemma {:induction false} GroupCount(t: seq<Record>, f: Field, k: string, x: Record)
    ensures multiset(Group(t, f, k))[x] == if Get(x, f) == k then multiset(t)[x] else 0
    decreases |t|
  {
    if |t| > 0 {
      GroupCount(t[1..], f, k, x);
      assert t == [t[0]] + t[1..];
    }
  }

  /** Tables holding the same rows have groups holding the same rows. */
  lemma GroupPermutation(t1: seq<Record>, t2: seq<Record>, f: Field, k: string)
    requires multiset(t1) == multiset(t2)
    ensures multiset(Group(t1, f, k)) == multiset(Group(t2, f, k))
  {
    forall x ensures multiset(Group(t1, f, k))[x] == multiset(Group(t2, f, k))[x] {
      GroupCount(t1, f, k, x);
      GroupCount(t2, f, k, x);
    }
  }

  /** A resample bin holds every copy of each row purchased on its day, and nothing else. */
  lemma {:induction false} DayGroupCount(t: seq<Record>, d: int, x: Record)
    ensures multiset(DayGroup(t, d))[x] == if Day(x.timestamp) == d then multiset(t)[x] else 0
    decreases |t|
  {
    if |t| > 0 {
      DayGroupCount(t[1..], d, x);
      assert t == [t[0]] + t[1..];
    }
  }

  /** Tables holding the same rows have resample bins holding the same rows. */
  lemma DayGroupPermutation(t1: seq<Record>, t2: seq<Record>, d: int)
    requires multiset(t1) == multiset(t2)
    ensures multiset(DayGroup(t1, d)) == multiset(DayGroup(t2, d))
  {
    forall x ensures multiset(DayGroup(t1, d))[x] == multiset(DayGroup(t2, d))[x] {
      DayGroupCount(t1, d, x);
      DayGroupCount(t2, d, x);
    }
  }

  /** `nunique` depends only on which rows the table holds. */
  lemma ValuesOrderFree(s1: seq<Record>, s2: seq<Record>, f: Field)
    requires forall x :: x in s1 <==> x in s2
    ensures Values(s1, f) == Values(s2, f)
  {
    ValuesMember(s1, f);
    ValuesMember(s2, f);
  }

  /** The latest purchase timestamp of a non-empty set of rows. */
  function MaxTimestamp(s: seq<Record>): (ts: int)
    requires |s| > 0
    ensures exists x :: x in s && x.timestamp == ts
    ensures forall x :: x in s ==> x.timestamp <= ts
  {
    if |s| == 1 then s[0].timestamp
    else
      var m := MaxTimestamp(s[1..]);
      assert forall x :: x in s ==> x == s[0] || x in s[1..];
      if s[0].timestamp >= m then s[0].timestamp else m
  }

  /** The earliest purchase timestamp of a non-empty set of rows. */
  function MinTimestamp(s: seq<Record>): (ts: int)
    requires |s| > 0
    ensures exists x :: x in s && x.timestamp == ts
    ensures forall x :: x in s ==> ts <= x.timestamp
  {
    if |s| == 1 then s[0].timestamp
    else
      var m := MinTimestamp(s[1..]);
      assert forall x :: x in s ==> x == s[0] || x in s[1..];
      if s[0].timestamp <= m then s[0].timestamp else m
  }

  /** The latest purchase day of a non-empty set of rows (`dt.date.max()`). */
  function MaxDay(s: seq<Record>): (d: int)
    requires |s| > 0
    ensures exists x :: x in s && Day(x.timestamp) == d
    ensures forall x :: x in s ==> Day(x.timestamp) <= d
  {
    if |s| == 1 then Day(s[0].timestamp)
    else
      var m := MaxDay(s[1..]);
      assert forall x :: x in s ==> x == s[0] || x in s[1..];
      if Day(s[0].timestamp) >= m then Day(s[0].timestamp) else m
  }

  /**
   * Taking the latest timestamp and then its date gives the same day as
   * taking the dates and then the latest of them.
   */
  lemma DayOfMaxTimestamp(s: seq<Record>)
    requires |s| > 0
    ensures Day(MaxTimestamp(s)) == MaxDay(s)
  {
    var d, ts := MaxDay(s), MaxTimestamp(s);
    var x :| x in s && Day(x.timestamp) == d;
    DayMonotone(x.timestamp, ts);
    var y :| y in s && y.timestamp == ts;
    assert Day(y.timestamp) <= d;
  }

  lemma MaxTimestampOrderFree(s1: seq<Record>, s2: seq<Record>)
    requires |s1| > 0 && |s2| > 0
    requires forall x :: x in s1 <==> x in s2
    ensures MaxTimestamp(s1) == MaxTimestamp(s2)
  {
    var hi1, hi2 := MaxTimestamp(s1), MaxTimestamp(s2);
    var a :| a in s1 && a.timestamp == hi1;
    var b :| b in s2 && b.timestamp == hi2;
    assert a in s2 && b in s1;
  }

  lemma MinTimestampOrderFree(s1: seq<Record>, s2: seq<Record>)
    requires |s1| > 0 && |s2| > 0
    requires forall x :: x in s1 <==> x in s2
    ensures MinTimestamp(s1) == MinTimestamp(s2)
  {
    var lo1, lo2 := MinTimestamp(s1), MinTimestamp(s2);
    var a :| a in s1 && a.timestamp == lo1;
    var b :| b in s2 && b.timestamp == lo2;
    assert a in s2 && b in s1;
  }

  lemma MaxDayOrderFree(s1: seq<Record>, s2: seq<Record>)
    requires |s1| > 0 && |s2| > 0
    requires forall x :: x in s1 <==> x in s2
    ensures MaxDay(s1) == MaxDay(s2)
  {
    var d1, d2 := MaxDay(s1), MaxDay(s2);
    var a :| a in s1 && Day(a.timestamp) == d1;
    var b :| b in s2 && Day(b.timestamp) == d2;
    assert a in s2 && b in s1;
  }

  /** The latest and earliest timestamps and the latest day depend only on which rows the table holds. */
  lemma ExtremaOrderFree(s1: seq<Record>, s2: seq<Record>)
    requires |s1| > 0 && |s2| > 0
    requires forall x :: x in s1 <==> x in s2
    ensures MaxTimestamp(s1) == MaxTimestamp(s2)
    ensures MinTimestamp(s1) == MinTimestamp(s2)
    ensures MaxDay(s1) == MaxDay(s2)
  {
    MaxTimestampOrderFree(s1, s2);
    MinTimestampOrderFree(s1, s2);
    MaxDayOrderFree(s1, s2);
  }
}
