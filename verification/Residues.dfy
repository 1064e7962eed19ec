/** How many of a run of consecutive numbers fall into one residue class. */
module Residues {
  import opened Sums

  /** i % k and i / k, counted up from 0 (lemma ColRow). */
  function Col(i: nat, k: nat): (c: nat)
    requires k > 0
    ensures c < k
  {
    if i == 0 || Col(i - 1, k) + 1 == k then 0 else Col(i - 1, k) + 1
  }

  function Row(i: nat, k: nat): nat
    requires k > 0
  {
    if i == 0 then 0 else if Col(i, k) == 0 then Row(i - 1, k) + 1 else Row(i - 1, k)
  }

  lemma MulAdd(a: nat, b: nat, k: nat)
    ensures (a + b) * k == a * k + b * k
  {
  }

  lemma MulLe(a: nat, b: nat, k: nat)
    requires a <= b
    ensures a * k <= b * k
  {
    MulAdd(a, b - a, k);
  }

  lemma DivMod(q: nat, r: nat, k: nat)
    requires r < k
    ensures (q * k + r) / k == q && (q * k + r) % k == r
  {
    var x := q * k + r;
    var d, m := x / k, x % k;
    assert x == d * k + m;
    if d < q {
      MulLe(d + 1, q, k);
      MulAdd(d, 1, k);
    } else if d > q {
      MulLe(q + 1, d, k);
      MulAdd(q, 1, k);
    }
  }

  lemma {:induction false} Count(i: nat, k: nat)
    requires k > 0
    ensures Col(i, k) < k && i == Row(i, k) * k + Col(i, k)
  {
    if i > 0 {
      Count(i - 1, k);
      MulAdd(Row(i - 1, k), 1, k);
    }
  }

  lemma ColRow(i: nat, k: nat)
    requires k > 0
    ensures Col(i, k) == i % k < k && Row(i, k) == i / k && i == Row(i, k) * k + Col(i, k)
  {
    Count(i, k);
    DivMod(Row(i, k), Col(i, k), k);
  }

  /** The place of index n + r * k is column n of row r. */
  lemma PlaceOf(n: nat, r: nat, k: nat)
    requires n < k
    ensures Col(n + r * k, k) == n && Row(n + r * k, k) == r
  {
    ColRow(n + r * k, k);
    DivMod(r, n, k);
  }

  /** The number of i below x with i % k == j. */
  function Hits(x: nat, k: nat, j: nat): nat
    requires k > 0
  {
    if x == 0 then 0 else Hits(x - 1, k, j) + if Col(x - 1, k) == j then 1 else 0
  }

  /** Full rows count once, the last row counts up to its column. */
  lemma {:induction false} HitsOf(x: nat, k: nat, j: nat)
    requires j < k
    ensures Hits(x, k, j) == Row(x, k) + if j < Col(x, k) then 1 else 0
  {
    Count(x, k);
    if x > 0 {
      Count(x - 1, k);
      HitsOf(x - 1, k, j);
    }
  }

  /** Index j + i * k is below x exactly when i counts below the hits of class j. */
  lemma BelowIff(x: nat, k: nat, j: nat, i: nat)
    requires j < k
    ensures j + i * k < x <==> i < Hits(x, k, j)
  {
    var q := Row(x, k);
    Count(x, k);
    HitsOf(x, k, j);
    if i < q {
      MulLe(i + 1, q, k);
      MulAdd(i, 1, k);
    } else if i > q {
      MulLe(q + 1, i, k);
      MulAdd(q, 1, k);
    }
  }

  /** Any m consecutive numbers hit each class floor(m/k) or ceil(m/k) times. */
  lemma HitsFair(start: nat, m: nat, k: nat, j: nat)
    requires j < k
    ensures FairShare(m, k, Hits(start + m, k, j) - Hits(start, k, j))
  {
    var q, r, p, s := Row(start, k), Col(start, k), Row(m, k), Col(m, k);
    ColRow(start, k);
    ColRow(m, k);
    HitsOf(start, k, j);
    HitsOf(start + m, k, j);
    MulAdd(q, p, k);
    MulAdd(q + p, 1, k);
    MulAdd(p, 1, k);
    if r + s < k {
      PlaceOf(r + s, q + p, k);
    } else {
      PlaceOf(r + s - k, q + p + 1, k);
    }
    if s == 0 {
      DivMod(p, k - 1, k);
    } else {
      DivMod(p + 1, s - 1, k);
    }
  }

  /** How often n occurs in s. */
  function Occurrences(s: seq<nat>, n: nat): nat {
    if s == [] then 0 else Occurrences(s[..|s| - 1], n) + if s[|s| - 1] == n then 1 else 0
  }

  /** Numbers that walk the classes one by one meet class j as often as the indices do. */
  lemma {:induction false} ColumnHits(s: seq<nat>, start: nat, k: nat, j: nat)
    requires k > 0 && forall i :: 0 <= i < |s| ==> s[i] == Col(start + i, k)
    ensures Hits(start + |s|, k, j) == Hits(start, k, j) + Occurrences(s, j)
  {
    if s != [] {
      ColumnHits(s[..|s| - 1], start, k, j);
      assert start + |s| - 1 == start + (|s| - 1);
    }
  }

  /** floor(m/k) <= h <= ceil(m/k) */
  predicate FairShare(m: nat, k: nat, h: int)
    requires k > 0
  {
    m / k <= h <= (m + k - 1) / k
  }

  lemma HitsFairFromZero(m: nat, k: nat, j: nat)
    requires j < k
    ensures FairShare(m, k, Hits(m, k, j))
  {
    HitsFair(0, m, k, j);
  }

  function AllHits(x: nat, k: nat): (r: seq<nat>)
    requires k > 0
    ensures |r| == k
  {
    seq(k, j requires 0 <= j => Hits(x, k, j))
  }

  /** Every index is in exactly one class. */
  lemma {:induction false} HitsSum(x: nat, k: nat)
    requires k > 0
    ensures Sum(AllHits(x, k)) == x
  {
    if x == 0 {
      SumBounded(AllHits(0, k), 0);
    } else {
      HitsSum(x - 1, k);
      Count(x - 1, k);
      var j := Col(x - 1, k);
      assert AllHits(x, k) == AllHits(x - 1, k)[j := Hits(x - 1, k, j) + 1];
      SumUpdate(AllHits(x - 1, k), j, Hits(x - 1, k, j) + 1);
    }
  }
}
