/** Top-N selection by impact score and the cost statistics of the
    selection. */
module Selection {

  import opened Util
  import opened Loader

  // ---- sorting ------------------------------------------------------------------

  /** `s` is in non-increasing order of `key`. */
  predicate SortedDesc<T>(s: seq<T>, key: T -> real)
  {
    forall i, j :: 0 <= i < j < |s| ==> key(s[i]) >= key(s[j])
  }

  /** Insert `x` into a sequence sorted largest first, before the first entry
      whose key it is not below. */
  function Insert<T>(x: T, s: seq<T>, key: T -> real): (r: seq<T>)
    ensures |r| == |s| + 1
    ensures multiset(r) == multiset(s) + multiset{x}
  {
    if s == [] then [x]
    else if key(x) >= key(s[0]) then [x] + s
    else
      assert s == [s[0]] + s[1..];
      [s[0]] + Insert(x, s[1..], key)
  }

  /** A sequence headed by an entry no smaller than the rest, followed by a
      sorted one, is sorted. */
  lemma SortedAfterHead<T>(h: T, r: seq<T>, key: T -> real)
    requires SortedDesc(r, key)
    requires forall k :: 0 <= k < |r| ==> key(r[k]) <= key(h)
    ensures SortedDesc([h] + r, key)
  {
    forall i, j | 0 <= i < j < |[h] + r| ensures key(([h] + r)[i]) >= key(([h] + r)[j]) {
      assert ([h] + r)[j] == r[j - 1];
      if i > 0 {
        assert ([h] + r)[i] == r[i - 1];
      }
    }
  }

  /** Inserting into a sorted sequence keeps it sorted. */
  lemma {:induction false} InsertSorted<T>(x: T, s: seq<T>, key: T -> real)
    requires SortedDesc(s, key)
    ensures SortedDesc(Insert(x, s, key), key)
  {
    if s == [] {
    } else if key(x) >= key(s[0]) {
      SortedAfterHead(x, s, key);
    } else {
      var rest := Insert(x, s[1..], key);
      InsertSorted(x, s[1..], key);
      forall k | 0 <= k < |rest| ensures key(rest[k]) <= key(s[0]) {
        assert rest[k] in multiset(rest);
        if rest[k] != x {
          assert rest[k] in multiset(s[1..]);
          var j :| 0 <= j < |s[1..]| && s[1..][j] == rest[k];
          assert s[j + 1] == rest[k];
        }
      }
      SortedAfterHead(s[0], rest, key);
    }
  }

  /** A sort by `key`, largest first: insertion sort, which keeps entries with
      equal keys in their input order. */
  function SortDesc<T>(s: seq<T>, key: T -> real): (r: seq<T>)
    ensures SortedDesc(r, key)
    ensures multiset(r) == multiset(s)
    ensures |r| == |s|
  {
    if s == [] then []
    else
      var rest := SortDesc(s[1..], key);
      assert s == [s[0]] + s[1..];
      InsertSorted(s[0], rest, key);
      Insert(s[0], rest, key)
  }

  // ---- top-N ----------------------------------------------------------------------

  /** A roster row with its impact score. */
  datatype Scored = Scored(row: Employee, score: real)

  function ScoreOf(p: Scored): (s: real) { p.score }

  /** `sort_values("impact_score", ascending=False).head(n)`. */
  function Select(people: seq<Scored>, n: nat): (sel: seq<Scored>)
    ensures |sel| == Min(n, |people|)
    ensures SortedDesc(sel, ScoreOf)
    ensures multiset(sel) <= multiset(people)
  {
    var sorted := SortDesc(people, ScoreOf);
    SplitSorted(sorted, Min(n, |people|));
    sorted[..Min(n, |people|)]
  }

  /** `sel` is a top-`n` choice from `people`: `min(n, |people|)` of them, in
      non-increasing score order, drawn from `people` (as a multiset, so no
      row more often than it occurs), every selected score at least every
      score left out. */
  predicate IsTopN(people: seq<Scored>, n: nat, sel: seq<Scored>)
  {
    && |sel| == Min(n, |people|)
    && SortedDesc(sel, ScoreOf)
    && multiset(sel) <= multiset(people)
    && forall x, y :: x in sel && y in multiset(people) - multiset(sel) ==> x.score >= y.score
  }

  /** `head(n)` of the descending sort is a top-`n` choice. */
  lemma {:induction false} SelectIsTopN(people: seq<Scored>, n: nat)
    ensures IsTopN(people, n, Select(people, n))
  {
    var sorted := SortDesc(people, ScoreOf);
    var m := Min(n, |people|);
    SplitSorted(sorted, m);
    forall x: Scored, y: Scored | x in sorted[..m] && y in multiset(people) - multiset(sorted[..m])
      ensures x.score >= y.score
    {
      PrefixDominates(sorted, m, x, y);
    }
  }

  /** Cutting a sorted sequence at `m`: the prefix is sorted and what it
      leaves of the multiset is the suffix. */
  lemma SplitSorted(s: seq<Scored>, m: nat)
    requires SortedDesc(s, ScoreOf) && m <= |s|
    ensures SortedDesc(s[..m], ScoreOf)
    ensures multiset(s[..m]) <= multiset(s)
    ensures multiset(s) - multiset(s[..m]) == multiset(s[m..])
  {
    assert s == s[..m] + s[m..];
    assert multiset(s) == multiset(s[..m]) + multiset(s[m..]);
  }

  /** In a sorted sequence every entry before position `m` is at least every
      entry from `m` on. */
  lemma PrefixDominates(s: seq<Scored>, m: nat, x: Scored, y: Scored)
    requires SortedDesc(s, ScoreOf) && m <= |s|
    requires x in s[..m] && y in multiset(s[m..])
    ensures x.score >= y.score
  {
    var i :| 0 <= i < m && s[..m][i] == x;
    var j :| 0 <= j < |s| - m && s[m..][j] == y;
    assert ScoreOf(s[i]) >= ScoreOf(s[m + j]);
  }

  // ---- cost statistics ----------------------------------------------------------

  /** The `comp_usd` column of the selection. */
  function Comps(sel: seq<Scored>): (r: seq<int>)
    ensures |r| == |sel|
    ensures forall k :: 0 <= k < |sel| ==> r[k] == sel[k].row.comp
  {
    seq(|sel|, k requires 0 <= k < |sel| => sel[k].row.comp)
  }

  /** `int(selected["comp_usd"].sum())`, 0 when nothing is selected: always
      the plain sum, so the guard on an empty selection changes nothing. */
  function TotalCost(sel: seq<Scored>): (t: int)
    ensures t == Sum(Comps(sel))
  {
    if |sel| == 0 then 0 else Sum(Comps(sel))
  }

  /** `int(selected["comp_usd"].mean())`: the mean truncated toward zero, 0
      when nothing is selected. For a non-negative total it is the integer
      quotient rounded down, for a negative one the quotient rounded up. */
  function AverageCost(sel: seq<Scored>): (a: int)
    ensures |sel| == 0 ==> a == 0
    ensures |sel| > 0 && TotalCost(sel) >= 0 ==> a * |sel| <= TotalCost(sel) < (a + 1) * |sel|
    ensures |sel| > 0 && TotalCost(sel) < 0 ==> (a - 1) * |sel| < TotalCost(sel) <= a * |sel|
  {
    if |sel| == 0 then 0
    else
      TruncQuotient(Sum(Comps(sel)), |sel|);
      Trunc(Sum(Comps(sel)) as real / |sel| as real)
  }

  /** Truncating an exact quotient of integers, stated without reals. */
  lemma TruncQuotient(total: int, m: int)
    requires m > 0
    ensures var a := Trunc(total as real / m as real);
      && (total >= 0 ==> a * m <= total < (a + 1) * m)
      && (total < 0 ==> (a - 1) * m < total <= a * m)
  {
    var q := total as real / m as real;
    QuotientTimes(total, m);
    DivideSign(total as real, m as real);
    if total >= 0 {
      BetweenMultiples(total, m, Trunc(q), q);
    } else {
      BetweenMultiples(total, m, Trunc(q) - 1, q);
    }
  }

  /** A quotient in `[a, a + 1)` puts the dividend in `[a*m, (a+1)*m)`, and
      one in `(a, a + 1]` puts it in `(a*m, (a+1)*m]`. */
  lemma BetweenMultiples(total: int, m: int, a: int, q: real)
    requires m > 0 && q * m as real == total as real
    ensures a as real <= q < (a + 1) as real ==> a * m <= total < (a + 1) * m
    ensures a as real < q <= (a + 1) as real ==> a * m < total <= (a + 1) * m
  {
    CastProduct(a, m);
    CastProduct(a + 1, m);
    if a as real <= q < (a + 1) as real {
      ScaleLe(a as real, q, m as real);
      ScaleLt(q, (a + 1) as real, m as real);
    }
    if a as real < q <= (a + 1) as real {
      ScaleLt(a as real, q, m as real);
      ScaleLe(q, (a + 1) as real, m as real);
    }
  }

  lemma QuotientTimes(total: int, m: int)
    requires m > 0
    ensures (total as real / m as real) * m as real == total as real
  {
  }

  lemma DivideSign(x: real, m: real)
    requires m > 0.0
    ensures x >= 0.0 ==> x / m >= 0.0
    ensures x < 0.0 ==> x / m < 0.0
  {
  }

  lemma ScaleLe(x: real, y: real, m: real)
    requires m > 0.0 && x <= y
    ensures x * m <= y * m
  {
  }

  lemma ScaleLt(x: real, y: real, m: real)
    requires m > 0.0 && x < y
    ensures x * m < y * m
  {
  }

  lemma CastProduct(a: int, m: int)
    ensures (a * m) as real == a as real * m as real
  {
  }

  // ---- order statistics ---------------------------------------------------------

  /** How many entries of `c` are below `v`. */
  function CountBelow(c: seq<int>, v: int): (r: nat)
    ensures r <= |c|
  {
    if c == [] then 0 else (if c[0] < v then 1 else 0) + CountBelow(c[1..], v)
  }

  /** `a` is an entry of `c` and its `r`-th smallest counting from 0: at most
      `r` entries are below `a`, and more than `r` are at most `a` (below
      `a + 1`). */
  predicate IsRank(c: seq<int>, r: int, a: int)
  {
    a in c && CountBelow(c, a) <= r < CountBelow(c, a + 1)
  }

  /** `a` and `b` are the entries of the two middle ranks of `c`, `(|c| - 1) / 2`
      and `|c| / 2`: the same entry when the length is odd. */
  predicate MiddleRanks(c: seq<int>, a: int, b: int)
  {
    IsRank(c, (|c| - 1) / 2, a) && IsRank(c, |c| / 2, b)
  }

  lemma {:induction false} CountBelowAppend(a: seq<int>, b: seq<int>, v: int)
    ensures CountBelow(a + b, v) == CountBelow(a, v) + CountBelow(b, v)
  {
    if a == [] {
      assert a + b == b;
    } else {
      assert (a + b)[1..] == a[1..] + b;
      CountBelowAppend(a[1..], b, v);
    }
  }

  /** The counts depend only on the multiset of entries. */
  lemma {:induction false} CountBelowPermutation(c: seq<int>, s: seq<int>, v: int)
    requires multiset(c) == multiset(s)
    ensures CountBelow(c, v) == CountBelow(s, v)
  {
    if s != [] {
      var x := s[0];
      assert x in multiset(c);
      var i :| 0 <= i < |c| && c[i] == x;
      RemoveAt(c, i);
      assert s == [x] + s[1..];
      assert multiset(s[1..]) == multiset(s) - multiset{x};
      CountBelowPermutation(c[..i] + c[i + 1..], s[1..], v);
      CountBelowRemove(c, i, v);
    }
  }

  /** Removing entry `i` removes one copy of it from the multiset. */
  lemma RemoveAt(c: seq<int>, i: int)
    requires 0 <= i < |c|
    ensures multiset(c[..i] + c[i + 1..]) == multiset(c) - multiset{c[i]}
  {
    assert c == c[..i] + [c[i]] + c[i + 1..];
    assert multiset(c) == multiset(c[..i]) + multiset{c[i]} + multiset(c[i + 1..]);
  }

  /** Removing entry `i` lowers the count by one exactly when it is below `v`. */
  lemma CountBelowRemove(c: seq<int>, i: int, v: int)
    requires 0 <= i < |c|
    ensures CountBelow(c, v) == CountBelow(c[..i] + c[i + 1..], v) + (if c[i] < v then 1 else 0)
  {
    assert c == c[..i] + ([c[i]] + c[i + 1..]);
    CountBelowAppend(c[..i], [c[i]] + c[i + 1..], v);
    CountBelowAppend(c[..i], c[i + 1..], v);
    assert ([c[i]] + c[i + 1..])[1..] == c[i + 1..];
  }

  lemma {:induction false} CountBelowMonotone(c: seq<int>, v: int, w: int)
    ensures v <= w ==> CountBelow(c, v) <= CountBelow(c, w)
  {
    if c != [] {
      CountBelowMonotone(c[1..], v, w);
    }
  }

  lemma {:induction false} CountBelowNone(c: seq<int>, v: int)
    requires forall k :: 0 <= k < |c| ==> v <= c[k]
    ensures CountBelow(c, v) == 0
  {
    if c != [] {
      CountBelowNone(c[1..], v);
    }
  }

  lemma {:induction false} CountBelowAll(c: seq<int>, v: int)
    requires forall k :: 0 <= k < |c| ==> c[k] < v
    ensures CountBelow(c, v) == |c|
  {
    if c != [] {
      CountBelowAll(c[1..], v);
    }
  }

  /** Each rank has at most one entry. */
  lemma RankUnique(c: seq<int>, r: int, a: int, b: int)
    requires IsRank(c, r, a) && IsRank(c, r, b)
    ensures a == b
  {
    CountBelowMonotone(c, a + 1, b);
    CountBelowMonotone(c, b + 1, a);
  }

  /** Rearranging a sequence keeps the rank of every entry. */
  lemma RankPermutation(c: seq<int>, s: seq<int>, r: int, a: int)
    requires multiset(c) == multiset(s) && IsRank(s, r, a)
    ensures IsRank(c, r, a)
  {
    assert a in multiset(s);
    CountBelowPermutation(c, s, a);
    CountBelowPermutation(c, s, a + 1);
  }

  /** In a sequence sorted largest first, position `k` holds the entry of rank
      `|s| - 1 - k`. */
  lemma SortedRank(s: seq<int>, k: int)
    requires SortedDesc(s, AsReal) && 0 <= k < |s|
    ensures IsRank(s, |s| - 1 - k, s[k])
  {
    var x := s[k];
    var upTo := s[..k + 1];
    forall j | 0 <= j < |upTo| ensures x <= upTo[j] {
      if j < k {
        assert AsReal(s[j]) >= AsReal(s[k]);
      }
    }
    forall j | 0 <= j < |s| - k ensures s[k..][j] < x + 1 {
      if j > 0 {
        assert AsReal(s[k]) >= AsReal(s[k + j]);
      }
    }
    CountBelowNone(upTo, x);
    CountBelowAll(s[k..], x + 1);
    assert s == s[..k + 1] + s[k + 1..];
    CountBelowAppend(s[..k + 1], s[k + 1..], x);
    assert s == s[..k] + s[k..];
    CountBelowAppend(s[..k], s[k..], x + 1);
  }

  // ---- median -------------------------------------------------------------------

  /** The median of a sorted non-empty sequence: the middle entry, or the mean
      of the two middle entries when the length is even. Sorting largest
      first, as here, picks the same entries as sorting smallest first: the
      mean of the entries of rank `(|s| - 1) / 2` and `|s| / 2`, the same one
      twice when the length is odd. */
  function MedianOfSorted(s: seq<int>): (md: real)
    requires |s| > 0 && SortedDesc(s, AsReal)
    ensures exists i, j :: 0 <= i < |s| && 0 <= j < |s| && md == (s[i] + s[j]) as real / 2.0
    ensures exists a, b :: MiddleRanks(s, a, b) && md == (a + b) as real / 2.0
  {
    var m := |s| / 2;
    SortedRank(s, m);
    SortedRank(s, (|s| - 1) / 2);
    assert |s| - 1 - m == (|s| - 1) / 2 && |s| - 1 - (|s| - 1) / 2 == m;
    assert MiddleRanks(s, s[m], s[(|s| - 1) / 2]);
    if |s| % 2 == 1 then
      assert s[m] as real == (s[m] + s[m]) as real / 2.0;
      s[m] as real
    else
      assert (s[m - 1] + s[m]) as real / 2.0 == (s[m] + s[(|s| - 1) / 2]) as real / 2.0;
      (s[m - 1] + s[m]) as real / 2.0
  }

  function AsReal(x: int): (r: real) { x as real }

  /** `int(selected["comp_usd"].median())`, 0 when nothing is selected:
      otherwise the truncated mean of the selected compensations of rank
      `(m - 1) / 2` and `m / 2` among the `m` selected. */
  function MedianCost(sel: seq<Scored>): (md: int)
    ensures |sel| == 0 ==> md == 0
    ensures |sel| > 0 ==>
      exists i, j :: 0 <= i < |sel| && 0 <= j < |sel| && md == Trunc((sel[i].row.comp + sel[j].row.comp) as real / 2.0)
    ensures |sel| > 0 ==>
      exists a, b :: MiddleRanks(Comps(sel), a, b) && md == Trunc((a + b) as real / 2.0)
  {
    if |sel| == 0 then 0
    else
      var c := Comps(sel);
      var s := SortDesc(c, AsReal);
      MedianOfEntries(c, s);
      Trunc(MedianOfSorted(s))
  }

  /** The median of a sorted rearrangement of `c` is the mean of two entries
      of `c`, namely those of the middle ranks. */
  lemma MedianOfEntries(c: seq<int>, s: seq<int>)
    requires |s| > 0 && multiset(s) == multiset(c) && SortedDesc(s, AsReal)
    ensures exists i, j :: 0 <= i < |c| && 0 <= j < |c| && MedianOfSorted(s) == (c[i] + c[j]) as real / 2.0
    ensures exists a, b :: MiddleRanks(c, a, b) && MedianOfSorted(s) == (a + b) as real / 2.0
  {
    MedianRanks(c, s);
    var md := MedianOfSorted(s);
    var a, b :| MiddleRanks(c, a, b) && md == (a + b) as real / 2.0;
    var i :| 0 <= i < |c| && c[i] == a;
    var j :| 0 <= j < |c| && c[j] == b;
  }

  /** The median of a sorted rearrangement of `c` is the mean of the middle
      entries of `c`. */
  lemma MedianRanks(c: seq<int>, s: seq<int>)
    requires |s| > 0 && multiset(s) == multiset(c) && SortedDesc(s, AsReal)
    ensures exists a, b :: MiddleRanks(c, a, b) && MedianOfSorted(s) == (a + b) as real / 2.0
  {
    var md := MedianOfSorted(s);
    assert exists a, b :: MiddleRanks(s, a, b) && md == (a + b) as real / 2.0;
    var a, b :| MiddleRanks(s, a, b) && md == (a + b) as real / 2.0;
    MiddleRanksPermutation(c, s, a, b);
  }

  /** Rearranging a sequence keeps its middle entries. */
  lemma MiddleRanksPermutation(c: seq<int>, s: seq<int>, a: int, b: int)
    requires multiset(c) == multiset(s) && MiddleRanks(s, a, b)
    ensures MiddleRanks(c, a, b)
  {
    assert |c| == |multiset(c)| == |s|;
    RankPermutation(c, s, (|s| - 1) / 2, a);
    RankPermutation(c, s, |s| / 2, b);
  }

  /** The two middle entries of a sequence are unique. */
  lemma MiddleRanksUnique(c: seq<int>, a: int, b: int, a': int, b': int)
    requires MiddleRanks(c, a, b) && MiddleRanks(c, a', b')
    ensures a == a' && b == b'
  {
    RankUnique(c, (|c| - 1) / 2, a, a');
    RankUnique(c, |c| / 2, b, b');
  }

  /** The median is pinned: whichever compensations hold the two middle
      ranks, the median is their truncated mean. */
  lemma MedianIsMiddle(sel: seq<Scored>, a: int, b: int)
    requires |sel| > 0 && MiddleRanks(Comps(sel), a, b)
    ensures MedianCost(sel) == Trunc((a + b) as real / 2.0)
  {
    var md := MedianCost(sel);
    var c := Comps(sel);
    var a', b' :| MiddleRanks(c, a', b') && md == Trunc((a' + b') as real / 2.0);
    MiddleRanksUnique(c, a, b, a', b');
  }

  /** Three employees paid 300000, 100000 and 200000, in selection order: the
      median is the middle pay 200000, not the top scorer's. */
  lemma ThreeEmployeeMedian(x: Employee, y: Employee, z: Employee)
    requires x.comp == 300000 && y.comp == 100000 && z.comp == 200000
    ensures MedianCost([Scored(x, 3.0), Scored(y, 2.0), Scored(z, 1.0)]) == 200000
  {
    var sel := [Scored(x, 3.0), Scored(y, 2.0), Scored(z, 1.0)];
    var c := Comps(sel);
    assert c == [300000, 100000, 200000];
    assert c[1..] == [100000, 200000] && c[1..][1..] == [200000] && c[1..][1..][1..] == [];
    assert c[2] == 200000;
    assert CountBelow([200000], 200000) == 0 && CountBelow([200000], 200001) == 1;
    assert CountBelow([100000, 200000], 200000) == 1 && CountBelow([100000, 200000], 200001) == 2;
    assert CountBelow(c, 200000) == 1 && CountBelow(c, 200001) == 2;
    MedianIsMiddle(sel, 200000, 200000);
  }

  /** All three statistics are 0 for an empty selection. */
  lemma StatisticsOfNothing()
    ensures TotalCost([]) == 0 && AverageCost([]) == 0 && MedianCost([]) == 0
  {
  }

  /** The total is the sum of the selected compensations, and lies between the
      count times the least and the count times the greatest of them. */
  lemma TotalCostBounds(sel: seq<Scored>, lo: int, hi: int)
    requires forall k :: 0 <= k < |sel| ==> lo <= sel[k].row.comp <= hi
    ensures |sel| * lo <= TotalCost(sel) <= |sel| * hi
  {
    SumBounds(Comps(sel), lo, hi);
  }

  /** The truncated mean lies between the least and the greatest selected
      compensation. */
  lemma AverageCostBounds(sel: seq<Scored>, lo: int, hi: int)
    requires |sel| > 0
    requires forall k :: 0 <= k < |sel| ==> lo <= sel[k].row.comp <= hi
    ensures lo <= AverageCost(sel) <= hi
  {
    var c := Comps(sel);
    SumBounds(c, lo, hi);
    QuotientBetween(Sum(c), |sel|, lo, hi);
    TruncBetween(Sum(c) as real / |sel| as real, lo, hi);
  }

  lemma QuotientBetween(total: int, m: nat, lo: int, hi: int)
    requires m > 0 && m * lo <= total <= m * hi
    ensures lo as real <= total as real / m as real <= hi as real
  {
    var q := total as real / m as real;
    assert q * m as real == total as real;
  }

  /** The truncated median lies between the least and the greatest selected
      compensation. */
  lemma MedianCostBounds(sel: seq<Scored>, lo: int, hi: int)
    requires |sel| > 0
    requires forall k :: 0 <= k < |sel| ==> lo <= sel[k].row.comp <= hi
    ensures lo <= MedianCost(sel) <= hi
  {
    var c := Comps(sel);
    var s := SortDesc(c, AsReal);
    forall k | 0 <= k < |s| ensures lo <= s[k] <= hi {
      assert s[k] in multiset(c);
      var j :| 0 <= j < |c| && c[j] == s[k];
    }
    TruncBetween(MedianOfSorted(s), lo, hi);
  }

  /** Two employees of 200000 and 100000: total 300000, mean and median 150000. */
  lemma TwoEmployeeStatistics(a: Employee, b: Employee)
    requires a.comp == 200000 && b.comp == 100000
    ensures var sel := [Scored(a, 2.0), Scored(b, 1.0)];
      TotalCost(sel) == 300000 && AverageCost(sel) == 150000 && MedianCost(sel) == 150000
  {
    var sel := [Scored(a, 2.0), Scored(b, 1.0)];
    var c := Comps(sel);
    assert c == [200000, 100000];
    SumOfTwo(c);
    assert Sum(c) as real / |sel| as real == 150000.0;
    MedianOfTwo(c);
  }

  lemma SumOfTwo(c: seq<int>)
    requires c == [200000, 100000]
    ensures Sum(c) == 300000
  {
    assert c[1..] == [100000];
    assert c[1..][1..] == [];
    assert Sum(c[1..]) == 100000;
  }

  lemma MedianOfTwo(c: seq<int>)
    requires c == [200000, 100000]
    ensures Trunc(MedianOfSorted(SortDesc(c, AsReal))) == 150000
  {
    assert c[1..] == [100000];
    assert SortDesc(c[1..], AsReal) == [100000];
    assert SortDesc(c, AsReal) == [200000, 100000];
    assert MedianOfSorted(SortDesc(c, AsReal)) == 150000.0;
  }
}
