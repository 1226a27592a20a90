/**
 Keyed tables. A table is a sequence of records; the pandas operations the
 engine relies on (skip-NaN sums, group-by sums, drop_duplicates with
 keep="first") are defined here once, by recursion on the last row, which is
 also the order in which the proofs unfold them.
 */
module Tables {

  /** A cell that may be missing (pandas NaN). */
  datatype Option<+T> = None | Some(value: T)

  /** A missing cell contributes nothing to a skip-NaN sum. */
  function OrZero(o: Option<real>): real
  {
    match o
    case Some(v) => v
    case None => 0.0
  }

  function Min(a: real, b: real): real
  {
    if a <= b then a else b
  }

  function Max(a: real, b: real): real
  {
    if a >= b then a else b
  }

  /** Row-wise `max(axis=1, skipna=True)` over two cells. */
  function MaxSkipNa(a: Option<real>, b: Option<real>): (r: Option<real>)
    ensures r.None? <==> a.None? && b.None?
    ensures a.Some? && b.Some? ==> r.value >= a.value && r.value >= b.value
    ensures r.Some? ==> r == a || r == b
  {
    match (a, b)
    case (Some(x), Some(y)) => Some(Max(x, y))
    case (Some(_), None) => a
    case (None, _) => b
  }

  /** Row-wise `min(axis=1, skipna=True)` over two cells. */
  function MinSkipNa(a: Option<real>, b: Option<real>): (r: Option<real>)
    ensures r.None? <==> a.None? && b.None?
    ensures a.Some? && b.Some? ==> r.value <= a.value && r.value <= b.value
    ensures r.Some? ==> r == a || r == b
  {
    match (a, b)
    case (Some(x), Some(y)) => Some(Min(x, y))
    case (Some(_), None) => a
    case (None, _) => b
  }

  /** Sum of f over the rows. */
  function Sum<T>(rows: seq<T>, f: T -> real): real
  {
    if |rows| == 0 then 0.0
    else Sum(rows[..|rows| - 1], f) + f(rows[|rows| - 1])
  }

  /** Sum of f over the rows whose key is k. */
  function SumWhere<T, K(==)>(rows: seq<T>, key: T -> K, k: K, f: T -> real): real
  {
    if |rows| == 0 then 0.0
    else
      SumWhere(rows[..|rows| - 1], key, k, f)
      + (if key(rows[|rows| - 1]) == k then f(rows[|rows| - 1]) else 0.0)
  }

  /** The rows that satisfy p, in their original order. */
  function Filter<T>(rows: seq<T>, p: T -> bool): (kept: seq<T>)
    ensures |kept| <= |rows|
    ensures forall j :: 0 <= j < |kept| ==> kept[j] in rows && p(kept[j])
    ensures forall i :: 0 <= i < |rows| && p(rows[i]) ==> rows[i] in kept
  {
    if |rows| == 0 then []
    else
      var prefix := rows[..|rows| - 1];
      var kept' := Filter(prefix, p);
      assert forall i :: 0 <= i < |prefix| ==> prefix[i] == rows[i];
      if p(rows[|rows| - 1]) then kept' + [rows[|rows| - 1]] else kept'
  }

  predicate HasKey<T, K(==)>(rows: seq<T>, key: T -> K, k: K)
  {
    exists i :: 0 <= i < |rows| && key(rows[i]) == k
  }

  predicate Distinct<K(==)>(ks: seq<K>)
  {
    forall i, j :: 0 <= i < j < |ks| ==> ks[i] != ks[j]
  }

  /** No two rows share a key. */
  predicate UniqueKeys<T, K(==)>(rows: seq<T>, key: T -> K)
  {
    forall i, j :: 0 <= i < j < |rows| ==> key(rows[i]) != key(rows[j])
  }

  /** Row i is the first row that carries its key. */
  predicate FirstOccurrence<T, K(==)>(rows: seq<T>, key: T -> K, i: int)
    requires 0 <= i < |rows|
  {
    forall j :: 0 <= j < i ==> key(rows[j]) != key(rows[i])
  }

  /** The distinct keys of the rows in order of first appearance: the groups
      of a group-by, or `unique()` of one column. */
  function Keys<T, K(==)>(rows: seq<T>, key: T -> K): (ks: seq<K>)
    ensures Distinct(ks)
    ensures forall i :: 0 <= i < |rows| ==> key(rows[i]) in ks
    ensures forall k :: k in ks ==> HasKey(rows, key, k)
  {
    if |rows| == 0 then []
    else
      var prefix := rows[..|rows| - 1];
      var ks' := Keys(prefix, key);
      var k := key(rows[|rows| - 1]);
      assert forall i :: 0 <= i < |prefix| ==> prefix[i] == rows[i];
      if k in ks' then ks' else ks' + [k]
  }

  /** The first row whose key is k, as a left merge on a unique key reads it. */
  function Find<T, K(==)>(rows: seq<T>, key: T -> K, k: K): (r: Option<T>)
    ensures r.Some? <==> HasKey(rows, key, k)
    ensures r.Some? ==> exists i :: 0 <= i < |rows| && rows[i] == r.value && key(rows[i]) == k
                                    && forall j :: 0 <= j < i ==> key(rows[j]) != k
  {
    if |rows| == 0 then None
    else if key(rows[0]) == k then Some(rows[0])
    else
      var r := Find(rows[1..], key, k);
      assert HasKey(rows, key, k) ==> HasKey(rows[1..], key, k) by {
        if HasKey(rows, key, k) {
          var i :| 0 <= i < |rows| && key(rows[i]) == k;
          assert key(rows[1..][i - 1]) == k;
        }
      }
      assert r.Some? ==> exists i :: 0 <= i < |rows| && rows[i] == r.value && key(rows[i]) == k
                                     && forall j :: 0 <= j < i ==> key(rows[j]) != k by {
        if r.Some? {
          var i :| 0 <= i < |rows[1..]| && rows[1..][i] == r.value && key(rows[1..][i]) == k
                   && forall j :: 0 <= j < i ==> key(rows[1..][j]) != k;
          assert rows[i + 1] == rows[1..][i];
          forall j | 0 <= j < i + 1 ensures key(rows[j]) != k {
            if j > 0 {
              assert rows[j] == rows[1..][j - 1];
            }
          }
        }
      }
      r
  }

  /** In a table with unique keys, the row found for a key is the row that
      carries it. */
  lemma FindUnique<T, K>(rows: seq<T>, key: T -> K, i: int)
    requires UniqueKeys(rows, key) && 0 <= i < |rows|
    ensures Find(rows, key, key(rows[i])) == Some(rows[i])
  {
    var r := Find(rows, key, key(rows[i]));
    var j :| 0 <= j < |rows| && rows[j] == r.value && key(rows[j]) == key(rows[i])
             && forall l :: 0 <= l < j ==> key(rows[l]) != key(rows[i]);
    assert j == i;
  }

  /** `drop_duplicates(subset=key, keep="first")`. The function promises one
      row per key drawn from the input; DropDuplicatesKeepsFirst and
      KeysOfDropDuplicates add that the kept row is the first of its key and
      that every key survives. */
  function DropDuplicates<T, K(==)>(rows: seq<T>, key: T -> K): (res: seq<T>)
    ensures |res| <= |rows|
    ensures UniqueKeys(res, key)
    ensures forall j :: 0 <= j < |res| ==> res[j] in rows
  {
    if |rows| == 0 then []
    else
      var prefix := rows[..|rows| - 1];
      var last := rows[|rows| - 1];
      var res' := DropDuplicates(prefix, key);
      assert forall j :: 0 <= j < |res'| ==> res'[j] in rows by {
        forall j | 0 <= j < |res'| ensures res'[j] in rows {
          var i :| 0 <= i < |prefix| && prefix[i] == res'[j];
          assert rows[i] == prefix[i];
        }
      }
      if HasKey(res', key, key(last)) then res'
      else
        var res := res' + [last];
        assert UniqueKeys(res, key) by {
          forall a, b | 0 <= a < b < |res| ensures key(res[a]) != key(res[b]) {
            assert res[a] == res'[a];
            if b < |res'| {
              assert res[b] == res'[b];
            }
          }
        }
        res
  }

  /** The row drop_duplicates keeps for a key is the first row with that key. */
  lemma {:induction false} DropDuplicatesKeepsFirst<T, K>(rows: seq<T>, key: T -> K, i: int)
    requires 0 <= i < |rows| && FirstOccurrence(rows, key, i)
    ensures rows[i] in DropDuplicates(rows, key)
  {
    var prefix := rows[..|rows| - 1];
    var last := rows[|rows| - 1];
    var res' := DropDuplicates(prefix, key);
    if i < |prefix| {
      assert FirstOccurrence(prefix, key, i) by {
        forall j | 0 <= j < i ensures key(prefix[j]) != key(prefix[i]) {
          assert prefix[j] == rows[j] && prefix[i] == rows[i];
        }
      }
      DropDuplicatesKeepsFirst(prefix, key, i);
      assert rows[i] == prefix[i];
    }
  }

  /** One group of a group-by sum. */
  datatype Group<K> = Group(key: K, total: real)

  function Total<K>(g: Group<K>): real
  {
    g.total
  }

  function GroupKey<K>(g: Group<K>): K
  {
    g.key
  }

  /** `groupby(key)[f].sum()`: one group per distinct key, in order of first
      appearance, holding the sum of f over that key's rows. */
  function GroupSum<T, K(==)>(rows: seq<T>, key: T -> K, f: T -> real): (gs: seq<Group<K>>)
    ensures |gs| == |Keys(rows, key)|
    ensures UniqueKeys(gs, GroupKey)
    ensures forall i :: 0 <= i < |rows| ==> HasKey(gs, GroupKey, key(rows[i]))
    ensures forall i :: 0 <= i < |gs| ==>
              HasKey(rows, key, gs[i].key) && gs[i].total == SumWhere(rows, key, gs[i].key, f)
  {
    var ks := Keys(rows, key);
    var gs := seq(|ks|, i requires 0 <= i < |ks| => Group(ks[i], SumWhere(rows, key, ks[i], f)));
    assert forall i :: 0 <= i < |rows| ==> gs[IndexOf(ks, key(rows[i]))].key == key(rows[i]);
    gs
  }

  /** Position of k in ks. */
  function IndexOf<K(==)>(ks: seq<K>, k: K): (i: nat)
    requires k in ks
    ensures i < |ks| && ks[i] == k
  {
    if ks[0] == k then 0 else 1 + IndexOf(ks[1..], k)
  }

  // ---------------------------------------------------------------------------
  // Lemmas about sums

  lemma {:induction false} SumWhereAbsent<T, K>(rows: seq<T>, key: T -> K, k: K, f: T -> real)
    requires !HasKey(rows, key, k)
    ensures SumWhere(rows, key, k, f) == 0.0
  {
    if |rows| > 0 {
      var prefix := rows[..|rows| - 1];
      assert !HasKey(prefix, key, k) by {
        assert forall i :: 0 <= i < |prefix| ==> prefix[i] == rows[i];
      }
      SumWhereAbsent(prefix, key, k, f);
    }
  }

  lemma {:induction false} SumWhereAppend<T, K>(a: seq<T>, b: seq<T>, key: T -> K, k: K, f: T -> real)
    ensures SumWhere(a + b, key, k, f) == SumWhere(a, key, k, f) + SumWhere(b, key, k, f)
  {
    if |b| > 0 {
      assert (a + b)[..|a + b| - 1] == a + b[..|b| - 1];
      SumWhereAppend(a, b[..|b| - 1], key, k, f);
    } else {
      assert a + b == a;
    }
  }

  lemma {:induction false} SumAppend<T>(a: seq<T>, b: seq<T>, f: T -> real)
    ensures Sum(a + b, f) == Sum(a, f) + Sum(b, f)
  {
    if |b| > 0 {
      assert (a + b)[..|a + b| - 1] == a + b[..|b| - 1];
      SumAppend(a, b[..|b| - 1], f);
    } else {
      assert a + b == a;
    }
  }

  /** Two tables whose rows agree, position by position, on key and value
      have the same keyed sums. */
  lemma {:induction false} SumWhereTransport<T, U, K>(
    a: seq<T>, keyA: T -> K, fa: T -> real,
    b: seq<U>, keyB: U -> K, fb: U -> real, k: K)
    requires |a| == |b|
    requires forall i :: 0 <= i < |a| ==> keyA(a[i]) == keyB(b[i])
    requires forall i :: 0 <= i < |a| && keyA(a[i]) == k ==> fa(a[i]) == fb(b[i])
    ensures SumWhere(a, keyA, k, fa) == SumWhere(b, keyB, k, fb)
  {
    if |a| > 0 {
      SumWhereTransport(a[..|a| - 1], keyA, fa, b[..|b| - 1], keyB, fb, k);
    }
  }

  /** Scaling every summand of a group scales the group's sum. */
  lemma {:induction false} SumWhereScale<T, K>(rows: seq<T>, key: T -> K, k: K, f: T -> real, g: T -> real, c: real)
    requires forall i :: 0 <= i < |rows| && key(rows[i]) == k ==> g(rows[i]) == f(rows[i]) * c
    ensures SumWhere(rows, key, k, g) == SumWhere(rows, key, k, f) * c
  {
    if |rows| > 0 {
      SumWhereScale(rows[..|rows| - 1], key, k, f, g, c);
    }
  }

  /** Keyed sums are monotone in the summand. */
  lemma {:induction false} SumWhereMono<T, K>(rows: seq<T>, key: T -> K, k: K, f: T -> real, g: T -> real)
    requires forall i :: 0 <= i < |rows| && key(rows[i]) == k ==> f(rows[i]) <= g(rows[i])
    ensures SumWhere(rows, key, k, f) <= SumWhere(rows, key, k, g)
  {
    if |rows| > 0 {
      SumWhereMono(rows[..|rows| - 1], key, k, f, g);
    }
  }

  /** Sums are monotone in the summand. */
  lemma {:induction false} SumMono<T>(rows: seq<T>, f: T -> real, g: T -> real)
    requires forall i :: 0 <= i < |rows| ==> f(rows[i]) <= g(rows[i])
    ensures Sum(rows, f) <= Sum(rows, g)
  {
    if |rows| > 0 {
      SumMono(rows[..|rows| - 1], f, g);
    }
  }

  /** Scaling every summand scales the sum. */
  lemma {:induction false} SumScale<T>(rows: seq<T>, f: T -> real, g: T -> real, c: real)
    requires forall i :: 0 <= i < |rows| ==> g(rows[i]) == f(rows[i]) * c
    ensures Sum(rows, g) == Sum(rows, f) * c
  {
    if |rows| > 0 {
      SumScale(rows[..|rows| - 1], f, g, c);
    }
  }

  /** With non-negative summands, a group's sum bounds each of its summands. */
  lemma {:induction false} SumWhereBoundsTerm<T, K>(rows: seq<T>, key: T -> K, f: T -> real, i: int)
    requires 0 <= i < |rows|
    requires forall j :: 0 <= j < |rows| ==> f(rows[j]) >= 0.0
    ensures 0.0 <= f(rows[i]) <= SumWhere(rows, key, key(rows[i]), f)
  {
    var prefix := rows[..|rows| - 1];
    if i == |rows| - 1 {
      SumWhereNonNeg(prefix, key, key(rows[i]), f);
    } else {
      SumWhereBoundsTerm(prefix, key, f, i);
    }
  }

  lemma {:induction false} SumWhereNonNeg<T, K>(rows: seq<T>, key: T -> K, k: K, f: T -> real)
    requires forall j :: 0 <= j < |rows| ==> f(rows[j]) >= 0.0
    ensures SumWhere(rows, key, k, f) >= 0.0
  {
    if |rows| > 0 {
      SumWhereNonNeg(rows[..|rows| - 1], key, k, f);
    }
  }

  /** Sum over a coarser key of the group-by totals: the groups whose key
      maps to j under coarse, taken in the order of ks. */
  function SumGroupsWhere<T, K(==), J(==)>(rows: seq<T>, key: T -> K, f: T -> real, ks: seq<K>, coarse: K -> J, j: J): real
  {
    if |ks| == 0 then 0.0
    else
      SumGroupsWhere(rows, key, f, ks[..|ks| - 1], coarse, j)
      + (if coarse(ks[|ks| - 1]) == j then SumWhere(rows, key, ks[|ks| - 1], f) else 0.0)
  }

  lemma {:induction false} SumGroupsWhereSnoc<T, K, J>(rows: seq<T>, x: T, key: T -> K, f: T -> real, ks: seq<K>, coarse: K -> J, j: J)
    requires Distinct(ks)
    ensures SumGroupsWhere(rows + [x], key, f, ks, coarse, j)
         == SumGroupsWhere(rows, key, f, ks, coarse, j)
            + (if key(x) in ks && coarse(key(x)) == j then f(x) else 0.0)
  {
    if |ks| > 0 {
      var ks' := ks[..|ks| - 1];
      var last := ks[|ks| - 1];
      assert Distinct(ks');
      SumGroupsWhereSnoc(rows, x, key, f, ks', coarse, j);
      assert (rows + [x])[..|rows|] == rows;
      assert key(x) in ks <==> key(x) in ks' || key(x) == last;
      assert key(x) == last ==> key(x) !in ks' by {
        forall i | 0 <= i < |ks'| ensures ks'[i] != last {
          assert ks'[i] == ks[i];
        }
      }
    }
  }

  /** Summing the group totals that fall under one coarser key j gives the
      sum over all rows that fall under j: group-by never loses or
      double-counts a row. */
  lemma {:induction false} GroupTotalsBy<T, K, J>(rows: seq<T>, key: T -> K, f: T -> real, coarse: K -> J, rowCoarse: T -> J, j: J)
    requires forall i :: 0 <= i < |rows| ==> rowCoarse(rows[i]) == coarse(key(rows[i]))
    ensures SumGroupsWhere(rows, key, f, Keys(rows, key), coarse, j) == SumWhere(rows, rowCoarse, j, f)
  {
    if |rows| > 0 {
      var p := rows[..|rows| - 1];
      var x := rows[|rows| - 1];
      assert rows == p + [x];
      GroupTotalsBy(p, key, f, coarse, rowCoarse, j);
      var kp := Keys(p, key);
      SumGroupsWhereSnoc(p, x, key, f, kp, coarse, j);
      if key(x) !in kp {
        assert Keys(rows, key) == kp + [key(x)];
        assert (kp + [key(x)])[..|kp|] == kp;
        SumGroupsWhereSnoc(p, x, key, f, kp, coarse, j);
        assert !HasKey(p, key, key(x));
        SumWhereAbsent(p, key, key(x), f);
      }
    }
  }

  /** The group table of GroupSum, summed over a coarser key, equals the
      keyed sum of the rows. */
  lemma {:induction false} GroupSumWhere<T, K, J>(rows: seq<T>, key: T -> K, f: T -> real, coarse: K -> J, groupCoarse: Group<K> -> J, rowCoarse: T -> J, j: J)
    requires forall i :: 0 <= i < |rows| ==> rowCoarse(rows[i]) == coarse(key(rows[i]))
    requires forall g: Group<K> :: groupCoarse(g) == coarse(g.key)
    ensures SumWhere(GroupSum(rows, key, f), groupCoarse, j, Total) == SumWhere(rows, rowCoarse, j, f)
  {
    var ks := Keys(rows, key);
    GroupsOfKeys(rows, key, f, ks, coarse, groupCoarse, j);
    GroupTotalsBy(rows, key, f, coarse, rowCoarse, j);
  }

  lemma {:induction false} GroupsOfKeys<T, K, J>(rows: seq<T>, key: T -> K, f: T -> real, ks: seq<K>, coarse: K -> J, groupCoarse: Group<K> -> J, j: J)
    requires forall g: Group<K> :: groupCoarse(g) == coarse(g.key)
    ensures SumWhere(seq(|ks|, i requires 0 <= i < |ks| => Group(ks[i], SumWhere(rows, key, ks[i], f))), groupCoarse, j, Total)
         == SumGroupsWhere(rows, key, f, ks, coarse, j)
  {
    if |ks| > 0 {
      var ks' := ks[..|ks| - 1];
      var gs := seq(|ks|, i requires 0 <= i < |ks| => Group(ks[i], SumWhere(rows, key, ks[i], f)));
      var gs' := seq(|ks'|, i requires 0 <= i < |ks'| => Group(ks'[i], SumWhere(rows, key, ks'[i], f)));
      assert gs[..|gs| - 1] == gs';
      GroupsOfKeys(rows, key, f, ks', coarse, groupCoarse, j);
    }
  }

  /** Every row lands in exactly one group: the group totals add up to the
      table total. */
  lemma GroupSumTotal<T, K>(rows: seq<T>, key: T -> K, f: T -> real)
    ensures Sum(GroupSum(rows, key, f), Total) == Sum(rows, f)
  {
    GroupSumWhere(rows, key, f, Everything<K>, Everything<Group<K>>, Everything<T>, true);
    SumWhereAll(GroupSum(rows, key, f), Total);
    SumWhereAll(rows, f);
  }

  /** The condition every row meets. */
  predicate Everything<T>(x: T)
  {
    true
  }

  /** A sum over a condition every row meets is the plain sum. */
  lemma {:induction false} SumWhereAll<T>(rows: seq<T>, f: T -> real)
    ensures SumWhere(rows, Everything<T>, true, f) == Sum(rows, f)
  {
    if |rows| > 0 {
      SumWhereAll(rows[..|rows| - 1], f);
    }
  }

  /** drop_duplicates is the identity on a table whose keys are unique. */
  lemma {:induction false} DropDuplicatesOfUnique<T, K>(rows: seq<T>, key: T -> K)
    requires UniqueKeys(rows, key)
    ensures DropDuplicates(rows, key) == rows
  {
    if |rows| > 0 {
      var p := rows[..|rows| - 1];
      var x := rows[|rows| - 1];
      assert UniqueKeys(p, key);
      DropDuplicatesOfUnique(p, key);
      assert !HasKey(p, key, key(x)) by {
        forall i | 0 <= i < |p| ensures key(p[i]) != key(x) {
          assert p[i] == rows[i];
        }
      }
      assert rows == p + [x];
    }
  }

  /** Dropping duplicates twice drops nothing more. */
  lemma DropDuplicatesIdempotent<T, K>(rows: seq<T>, key: T -> K)
    ensures DropDuplicates(DropDuplicates(rows, key), key) == DropDuplicates(rows, key)
  {
    DropDuplicatesOfUnique(DropDuplicates(rows, key), key);
  }

  /** Dropping duplicates on a key keeps every value of any coarser column
      and its order of first appearance: `unique()` of such a column is the
      same before and after. */
  lemma {:induction false} KeysOfDropDuplicates<T, K, J>(rows: seq<T>, key: T -> K, col: T -> J, coarse: K -> J)
    requires forall r :: col(r) == coarse(key(r))
    ensures Keys(DropDuplicates(rows, key), col) == Keys(rows, col)
  {
    if |rows| > 0 {
      var p := rows[..|rows| - 1];
      var x := rows[|rows| - 1];
      var dp := DropDuplicates(p, key);
      KeysOfDropDuplicates(p, key, col, coarse);
      var kp := Keys(p, col);
      assert Keys(rows, col) == if col(x) in kp then kp else kp + [col(x)];
      if HasKey(dp, key, key(x)) {
        assert DropDuplicates(rows, key) == dp;
        var i :| 0 <= i < |dp| && key(dp[i]) == key(x);
        assert col(dp[i]) == col(x);
        assert col(x) in Keys(dp, col);
      } else {
        var d := dp + [x];
        assert DropDuplicates(rows, key) == d;
        assert d[..|d| - 1] == dp;
        assert Keys(d, col) == if col(x) in kp then kp else kp + [col(x)];
      }
    }
  }
  /** Every row mapped through f, in order. */
  function Project<T, U>(rows: seq<T>, f: T -> U): (out: seq<U>)
    ensures |out| == |rows|
    ensures forall i :: 0 <= i < |rows| ==> out[i] == f(rows[i])
  {
    seq(|rows|, i requires 0 <= i < |rows| => f(rows[i]))
  }

  /** Filtering rows that all pass keeps every row. */
  lemma {:induction false} FilterAll<T>(rows: seq<T>, p: T -> bool)
    requires forall i :: 0 <= i < |rows| ==> p(rows[i])
    ensures Filter(rows, p) == rows
  {
    if |rows| > 0 {
      FilterAll(rows[..|rows| - 1], p);
      assert rows[..|rows| - 1] + [rows[|rows| - 1]] == rows;
    }
  }

  lemma FilterIdempotent<T>(rows: seq<T>, p: T -> bool)
    ensures Filter(Filter(rows, p), p) == Filter(rows, p)
  {
    FilterAll(Filter(rows, p), p);
  }

  /** Distinct values drawn from s number at most |s|. */
  lemma {:induction false} DistinctWithin<K>(ks: seq<K>, s: set<K>)
    requires Distinct(ks)
    requires forall i :: 0 <= i < |ks| ==> ks[i] in s
    ensures |ks| <= |s|
  {
    if |ks| > 0 {
      var x := ks[|ks| - 1];
      DistinctWithin(ks[..|ks| - 1], s - {x});
    }
  }
  /** Looking a key up in a group-by finds the group exactly when some row
      has the key, and the group holds the sum of those rows. */
  lemma FindGroupSum<T, K>(rows: seq<T>, key: T -> K, f: T -> real, k: K)
    ensures var g := Find(GroupSum(rows, key, f), GroupKey, k);
            && (g.Some? <==> HasKey(rows, key, k))
            && (g.Some? ==> g.value == Group(k, SumWhere(rows, key, k, f)))
  {
    var gs := GroupSum(rows, key, f);
    if HasKey(rows, key, k) {
      var j :| 0 <= j < |rows| && key(rows[j]) == k;
      assert HasKey(gs, GroupKey, key(rows[j]));
    }
  }

  /** A left merge against a group-by sum: the sum of the rows with key k,
      missing when no row has that key. */
  function MergedSum<T, K(==)>(rows: seq<T>, key: T -> K, f: T -> real, k: K): (x: Option<real>)
    ensures x.Some? <==> HasKey(rows, key, k)
    ensures x.Some? ==> x.value == SumWhere(rows, key, k, f)
  {
    FindGroupSum(rows, key, f, k);
    match Find(GroupSum(rows, key, f), GroupKey, k)
    case Some(g) => Some(g.total)
    case None => None
  }

  /** A row the filter rejects leaves the filtered table as it was. */
  lemma FilterRejected<T>(rows: seq<T>, x: T, p: T -> bool)
    requires !p(x)
    ensures Filter(rows + [x], p) == Filter(rows, p)
  {
    assert (rows + [x])[..|rows|] == rows;
  }

  /** Sums over two tables of equal length agree when their terms agree
      row by row. */
  lemma {:induction false} SumTransport<T, U>(a: seq<T>, fa: T -> real, b: seq<U>, fb: U -> real)
    requires |a| == |b|
    requires forall i :: 0 <= i < |a| ==> fa(a[i]) == fb(b[i])
    ensures Sum(a, fa) == Sum(b, fb)
  {
    if |a| > 0 {
      SumTransport(a[..|a| - 1], fa, b[..|b| - 1], fb);
    }
  }

  /** Filtering out rows that add nothing leaves a keyed sum as it was. */
  lemma {:induction false} SumWhereFilterZero<T, K>(rows: seq<T>, p: T -> bool, key: T -> K, k: K, f: T -> real)
    requires forall i :: 0 <= i < |rows| && !p(rows[i]) ==> f(rows[i]) == 0.0
    ensures SumWhere(Filter(rows, p), key, k, f) == SumWhere(rows, key, k, f)
  {
    if |rows| > 0 {
      var prefix := rows[..|rows| - 1];
      var x := rows[|rows| - 1];
      assert forall i :: 0 <= i < |prefix| ==> prefix[i] == rows[i];
      SumWhereFilterZero(prefix, p, key, k, f);
      if p(x) {
        var kept := Filter(prefix, p);
        assert (kept + [x])[..|kept + [x]| - 1] == kept;
      }
    }
  }
}
