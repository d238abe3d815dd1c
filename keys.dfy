/**
 * The sorted list of group keys that `groupby` produces: every distinct key
 * once, in ascending string order.
 */
module Keys {
  import opened StrOrder
  import opened Table

  predicate StrictlyAscending(s: seq<string>)
  {
    forall i, j :: 0 <= i < j < |s| ==> Less(s[i], s[j])
  }

  /** Adds `k` to an ascending key list unless it is already there. */
  function Insert(k: string, s: seq<string>): (r: seq<string>)
    requires StrictlyAscending(s)
    ensures StrictlyAscending(r)
    ensures forall x :: x in r <==> x == k || x in s
  {
    if |s| == 0 then [k]
    else if k == s[0] then s
    else if Less(k, s[0]) then
      assert forall j :: 0 < j < |s| ==> Less(k, s[j]) by {
        forall j | 0 < j < |s| ensures Less(k, s[j]) {
          LessTransitive(k, s[0], s[j]);
        }
      }
      [k] + s
    else
      var rest := Insert(k, s[1..]);
      LessTotal(k, s[0]);
      assert forall x :: x in s ==> x == s[0] || x in s[1..];
      assert forall x :: x in rest ==> Less(s[0], x);
      [s[0]] + rest
  }

  /** The distinct values of column `f` over `t`, ascending. */
  function SortedKeys(t: seq<Record>, f: Field): (r: seq<string>)
    ensures StrictlyAscending(r)
    ensures forall k :: k in r <==> k in Values(t, f)
  {
    if |t| == 0 then []
    else
      assert forall x :: x in t ==> x == t[0] || x in t[1..];
      Insert(Get(t[0], f), SortedKeys(t[1..], f))
  }

  /** An ascending list never repeats a key. */
  lemma AscendingDistinct(s: seq<string>, i: int, j: int)
    requires StrictlyAscending(s)
    requires 0 <= i < |s| && 0 <= j < |s| && i != j
    ensures s[i] != s[j]
  {
    if i < j {
      if s[i] == s[j] { LessIrreflexive(s[i]); }
    } else {
      if s[i] == s[j] { LessIrreflexive(s[j]); }
    }
  }

  /** The first key of an ascending list is the least. */
  lemma HeadLeast(s: seq<string>, k: string)
    requires StrictlyAscending(s) && k in s
    ensures k == s[0] || Less(s[0], k)
  {
    var i :| 0 <= i < |s| && s[i] == k;
  }

  /**
   * There is only one ascending list of a given set of keys: the key order
   * does not depend on the order of the input rows.
   */
  lemma {:induction false} AscendingUnique(a: seq<string>, b: seq<string>)
    requires StrictlyAscending(a) && StrictlyAscending(b)
    requires forall k :: k in a <==> k in b
    ensures a == b
    decreases |a|
  {
    assert |a| > 0 ==> a[0] in b;
    assert |b| > 0 ==> b[0] in a;
    if |a| > 0 && |b| > 0 {
      HeadLeast(a, b[0]);
      HeadLeast(b, a[0]);
      LessAsymmetric(a[0], b[0]);
      forall k ensures k in a[1..] <==> k in b[1..] {
        if k in a[1..] {
          var i :| 0 <= i < |a| - 1 && a[1..][i] == k;
          AscendingDistinct(a, 0, i + 1);
          assert k in b && k != b[0];
          assert b == [b[0]] + b[1..];
        }
        if k in b[1..] {
          var i :| 0 <= i < |b| - 1 && b[1..][i] == k;
          AscendingDistinct(b, 0, i + 1);
          assert k in a && k != a[0];
          assert a == [a[0]] + a[1..];
        }
      }
      AscendingUnique(a[1..], b[1..]);
      assert a == [a[0]] + a[1..] && b == [b[0]] + b[1..];
    }
  }

  /** The sorted keys depend only on which rows the table holds. */
  lemma SortedKeysOrderFree(t1: seq<Record>, t2: seq<Record>, f: Field)
    requires forall x :: x in t1 <==> x in t2
    ensures SortedKeys(t1, f) == SortedKeys(t2, f)
  {
    ValuesOrderFree(t1, t2, f);
    AscendingUnique(SortedKeys(t1, f), SortedKeys(t2, f));
  }

  /** The sum of column `m` over the groups of `keys`, one group after the other. */
  function KeyedTotal(t: seq<Record>, f: Field, keys: seq<string>, m: Measure): int
  {
    if |keys| == 0 then 0 else Total(Group(t, f, keys[0]), m) + KeyedTotal(t, f, keys[1..], m)
  }

  /** What row `x` adds to the groups of `keys`. */
  function Share(x: Record, f: Field, keys: seq<string>, m: Measure): int
  {
    if Get(x, f) in keys then Value(x, m) else 0
  }

  lemma {:induction false} KeyedTotalOfNothing(f: Field, keys: seq<string>, m: Measure)
    ensures KeyedTotal([], f, keys, m) == 0
    decreases |keys|
  {
    if |keys| > 0 {
      KeyedTotalOfNothing(f, keys[1..], m);
    }
  }

  /** Taking the first row off the table takes its share off the groups' total. */
  lemma {:induction false} KeyedTotalSplit(t: seq<Record>, f: Field, keys: seq<string>, m: Measure)
    requires |t| > 0 && StrictlyAscending(keys)
    ensures KeyedTotal(t, f, keys, m) == Share(t[0], f, keys, m) + KeyedTotal(t[1..], f, keys, m)
    decreases |keys|
  {
    if |keys| > 0 {
      KeyedTotalSplit(t, f, keys[1..], m);
      assert keys == [keys[0]] + keys[1..];
      if Get(t[0], f) == keys[0] {
        if Get(t[0], f) in keys[1..] {
          var j :| 0 <= j < |keys| - 1 && keys[1..][j] == keys[0];
          AscendingDistinct(keys, 0, j + 1);
        }
        TotalCons(t[0], Group(t[1..], f, keys[0]), m);
      }
    }
  }

  /**
   * Adding up a column group by group, over keys that hold every row's key
   * once, gives the column's total over the whole table.
   */
  lemma {:induction false} KeyedTotalCovers(t: seq<Record>, f: Field, keys: seq<string>, m: Measure)
    requires StrictlyAscending(keys)
    requires forall x :: x in t ==> Get(x, f) in keys
    ensures KeyedTotal(t, f, keys, m) == Total(t, m)
    decreases |t|
  {
    if |t| == 0 {
      KeyedTotalOfNothing(f, keys, m);
    } else {
      KeyedTotalSplit(t, f, keys, m);
      assert t[0] in t;
      assert forall x :: x in t[1..] ==> x in t;
      KeyedTotalCovers(t[1..], f, keys, m);
    }
  }
}
