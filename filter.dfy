/**
 * The date-range filter that feeds every summary (`main_df`). The two dates
 * of the picker are compared with the purchase timestamps as strings
 * `"YYYY-MM-DD"`, which pandas reads as midnight at the start of that day;
 * so a row is kept when its timestamp lies between the midnight that starts
 * the first date and the midnight that starts the last date, both included.
 * That drops the purchases made on the last date after midnight; `SelectDays`
 * is the filter over whole picked days. Dates are day numbers (days since
 * the epoch).
 */
module RangeFilter {
  import opened Table

  /** The timestamp `str(date)` stands for: midnight at the start of `date`. */
  function Midnight(date: int): int
  {
    date * 86400
  }

  /** `a` is `b` with some rows left out and the rest in their order. */
  predicate SubsequenceOf(a: seq<Record>, b: seq<Record>)
    decreases |b|
  {
    if |a| == 0 then true
    else if |b| == 0 then false
    else (a[0] == b[0] && SubsequenceOf(a[1..], b[1..])) || SubsequenceOf(a, b[1..])
  }

  /**
   * The boolean-mask selection of the rows whose timestamp lies in
   * `lo` .. `hi`: it keeps every copy of every such row, drops every other
   * row, and keeps table order.
   */
  function SelectBetween(t: seq<Record>, lo: int, hi: int): (r: seq<Record>)
    ensures SubsequenceOf(r, t)
    ensures forall x :: multiset(r)[x] == if lo <= x.timestamp <= hi then multiset(t)[x] else 0
    ensures forall x :: x in r ==> lo <= x.timestamp <= hi
  {
    if |t| == 0 then []
    else
      var rest := SelectBetween(t[1..], lo, hi);
      assert t == [t[0]] + t[1..];
      assert multiset(t) == multiset{t[0]} + multiset(t[1..]);
      if lo <= t[0].timestamp <= hi then
        assert ([t[0]] + rest)[1..] == rest;
        assert multiset([t[0]] + rest) == multiset{t[0]} + multiset(rest);
        [t[0]] + rest
      else
        rest
  }

  /** `main_df` as the dashboard computes it: from midnight of the first date to midnight of the last. */
  function Select(t: seq<Record>, startDate: int, endDate: int): (r: seq<Record>)
    ensures SubsequenceOf(r, t)
    ensures forall x :: x in r ==> Midnight(startDate) <= x.timestamp <= Midnight(endDate)
  {
    SelectBetween(t, Midnight(startDate), Midnight(endDate))
  }

  /** The filter over whole picked days: up to the last second of the last date. */
  function SelectDays(t: seq<Record>, startDate: int, endDate: int): (r: seq<Record>)
    ensures SubsequenceOf(r, t)
    ensures forall x :: x in r ==> Midnight(startDate) <= x.timestamp < Midnight(endDate + 1)
  {
    SelectBetween(t, Midnight(startDate), Midnight(endDate + 1) - 1)
  }

  /**
   * The dashboard's filter keeps a row of the table exactly when it was
   * purchased no earlier than midnight of the first date and no later than
   * midnight of the last date; the kept rows are in table order.
   */
  lemma SelectKeeps(t: seq<Record>, startDate: int, endDate: int, x: Record)
    requires x in t
    ensures SubsequenceOf(Select(t, startDate, endDate), t)
    ensures x in Select(t, startDate, endDate) <==> Midnight(startDate) <= x.timestamp <= Midnight(endDate)
  {
    assert multiset(t)[x] > 0;
  }

  /**
   * A purchase made after midnight on the last picked date is not kept,
   * although it falls on that date.
   */
  lemma LastDateExcludedAfterMidnight(t: seq<Record>, startDate: int, endDate: int, x: Record)
    requires x in t
    requires Day(x.timestamp) == endDate && x.timestamp != Midnight(endDate)
    ensures x !in Select(t, startDate, endDate)
  {
  }

  /** A purchase at any time on the first picked date is kept. */
  lemma FirstDateIncluded(t: seq<Record>, startDate: int, endDate: int, x: Record)
    requires x in t && startDate < endDate
    requires Day(x.timestamp) == startDate
    ensures x in Select(t, startDate, endDate)
  {
    assert multiset(t)[x] > 0;
  }

  /**
   * One purchase at one o'clock in the afternoon of the only picked day: the
   * dashboard's filter drops it, the whole-day filter keeps it.
   */
  lemma AfternoonPurchaseDropped()
    ensures var x := Record("o1", "c1", "toys", 1, 1000, 10 * 86400 + 13 * 3600, "sao paulo", "SP");
      && Select([x], 10, 10) == []
      && SelectDays([x], 10, 10) == [x]
  {
    var x := Record("o1", "c1", "toys", 1, 1000, 10 * 86400 + 13 * 3600, "sao paulo", "SP");
    assert [x][1..] == [];
  }

  /**
   * The whole-day filter keeps a row of the table exactly when its purchase
   * date lies between the two picked dates, both included.
   */
  lemma SelectDaysKeeps(t: seq<Record>, startDate: int, endDate: int, x: Record)
    requires x in t
    ensures SubsequenceOf(SelectDays(t, startDate, endDate), t)
    ensures x in SelectDays(t, startDate, endDate) <==> startDate <= Day(x.timestamp) <= endDate
  {
    assert multiset(t)[x] > 0;
    var d := Day(x.timestamp);
    if d < startDate {
      assert d * 86400 + 86400 <= startDate * 86400;
    }
    if d > endDate {
      assert (endDate + 1) * 86400 <= d * 86400;
    }
  }
}
