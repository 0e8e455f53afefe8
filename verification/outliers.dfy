/** `filter_by_iqr`: drop observations whose value lies outside
    [Q1 - 1.5·IQR, Q3 + 1.5·IQR], the quartiles taken over the whole input with the
    linear interpolation pandas uses by default (Hyndman–Fan type 7). */
module Outliers {

  import opened Frames
  import Sorting

  function Values(obs: seq<Obs>): (v: seq<int>)
    ensures |v| == |obs| && forall i :: 0 <= i < |obs| ==> v[i] == obs[i].value
  {
    seq(|obs|, i requires 0 <= i < |obs| => obs[i].value)
  }

  predicate Ascending(s: seq<int>)
  {
    forall i, j :: 0 <= i < j < |s| ==> s[i] <= s[j]
  }

  function AsReal(x: int): real
  {
    x as real
  }

  /** The values in ascending order. */
  function SortValues(values: seq<int>): (s: seq<int>)
    ensures Ascending(s) && multiset(s) == multiset(values)
  {
    var s := Sorting.SortBy(values, AsReal);
    assert forall i, j :: 0 <= i < j < |s| ==> AsReal(s[i]) <= AsReal(s[j]);
    s
  }

  /** The value of sorted data at fractional position `h / 4`, interpolated linearly
      between the two neighbouring data points. */
  function Interp(s: seq<int>, h: nat): real
    requires |s| >= 1 && h <= 4 * (|s| - 1)
  {
    var lo := h / 4;
    var frac := (h % 4) as real / 4.0;
    if lo + 1 < |s| then s[lo] as real + frac * (s[lo + 1] - s[lo]) as real else s[lo] as real
  }

  /** The quantile at p = 1/4 (Q1): position (n - 1)/4. */
  function Q1(s: seq<int>): real
    requires |s| >= 1
  {
    Interp(s, |s| - 1)
  }

  /** The quantile at p = 3/4 (Q3): position 3(n - 1)/4. */
  function Q3(s: seq<int>): real
    requires |s| >= 1
  {
    Interp(s, 3 * (|s| - 1))
  }

  lemma ScaleBounds(f: real, d: real)
    requires 0.0 <= f <= 1.0 && d >= 0.0
    ensures 0.0 <= f * d <= d
  {
  }

  lemma ScaleMonotone(f: real, g: real, d: real)
    requires f <= g && d >= 0.0
    ensures f * d <= g * d
  {
  }

  /** An interpolated value lies between its two neighbours. */
  lemma InterpBetween(s: seq<int>, h: nat)
    requires Ascending(s) && |s| >= 1 && h <= 4 * (|s| - 1)
    ensures s[h / 4] as real <= Interp(s, h)
    ensures h / 4 + 1 < |s| ==> Interp(s, h) <= s[h / 4 + 1] as real
    ensures h % 4 == 0 ==> Interp(s, h) == s[h / 4] as real
  {
    var lo := h / 4;
    if lo + 1 < |s| {
      ScaleBounds((h % 4) as real / 4.0, (s[lo + 1] - s[lo]) as real);
    }
  }

  /** Interpolation over sorted data is monotone in the position. */
  lemma InterpMonotone(s: seq<int>, h1: nat, h2: nat)
    requires Ascending(s) && |s| >= 1 && h1 <= h2 <= 4 * (|s| - 1)
    ensures Interp(s, h1) <= Interp(s, h2)
  {
    InterpBetween(s, h1);
    InterpBetween(s, h2);
    var lo1, lo2 := h1 / 4, h2 / 4;
    if lo1 == lo2 {
      if lo1 + 1 < |s| {
        ScaleMonotone((h1 % 4) as real / 4.0, (h2 % 4) as real / 4.0, (s[lo1 + 1] - s[lo1]) as real);
      }
    } else {
      assert lo1 + 1 <= lo2;
      assert s[lo1 + 1] <= s[lo2];
    }
  }

  datatype Band = Band(lower: real, upper: real)

  /** The acceptance band of sorted data: [Q1 - 1.5·IQR, Q3 + 1.5·IQR]. */
  function BandOf(s: seq<int>): Band
    requires |s| >= 1
  {
    var iqr := Q3(s) - Q1(s);
    Band(Q1(s) - 1.5 * iqr, Q3(s) + 1.5 * iqr)
  }

  /** The band computed from the whole column. */
  function IqrBand(values: seq<int>): Band
    requires |values| >= 1
  {
    BandOf(SortValues(values))
  }

  predicate InBand(v: int, b: Band)
  {
    b.lower <= v as real <= b.upper
  }

  /** Q1 <= Q3, so the IQR is never negative and the band contains [Q1, Q3]. */
  lemma QuartilesOrdered(s: seq<int>)
    requires Ascending(s) && |s| >= 1
    ensures Q1(s) <= Q3(s)
    ensures BandOf(s).lower <= Q1(s) && Q3(s) <= BandOf(s).upper
  {
    InterpMonotone(s, |s| - 1, 3 * (|s| - 1));
  }

  /** Some data point always lies in the band: one between the quartiles, or for two
      points the smaller, since Q1 - 1.5·IQR falls below it. */
  lemma SomeValueInBand(s: seq<int>) returns (k: nat)
    requires Ascending(s) && |s| >= 1
    ensures k < |s| && InBand(s[k], BandOf(s))
  {
    var n := |s|;
    QuartilesOrdered(s);
    if n == 2 {
      k := 0;
      assert Q1(s) == s[0] as real + 0.25 * (s[1] - s[0]) as real;
      assert Q3(s) == s[0] as real + 0.75 * (s[1] - s[0]) as real;
    } else {
      k := (n - 1 + 3) / 4;
      InterpMonotone(s, n - 1, 4 * k);
      InterpMonotone(s, 4 * k, 3 * (n - 1));
      InterpBetween(s, 4 * k);
    }
  }

  /** `r` is `s` with some elements left out, the rest in their original order. */
  predicate Subsequence<T(==)>(r: seq<T>, s: seq<T>)
    decreases |s|
  {
    if |r| == 0 then true
    else if |s| == 0 then false
    else (r[0] == s[0] && Subsequence(r[1..], s[1..])) || Subsequence(r, s[1..])
  }

  /** The rows inside the band, in input order. */
  function KeepInBand(obs: seq<Obs>, b: Band): (r: seq<Obs>)
    ensures Subsequence(r, obs)
    ensures forall o :: o in r ==> InBand(o.value, b)
    ensures forall o :: o in obs && InBand(o.value, b) ==> o in r
    ensures forall o :: multiset(r)[o] == if InBand(o.value, b) then multiset(obs)[o] else 0
  {
    if |obs| == 0 then []
    else
      var rest := KeepInBand(obs[1..], b);
      assert forall o :: o in obs ==> o == obs[0] || o in obs[1..];
      assert obs == [obs[0]] + obs[1..];
      assert multiset(obs) == multiset([obs[0]]) + multiset(obs[1..]);
      if InBand(obs[0].value, b) then [obs[0]] + rest else rest
  }

  /** `filter_by_iqr`. An empty frame has NaN quartiles, which no value compares within. */
  function FilterByIqr(obs: seq<Obs>): (r: seq<Obs>)
    ensures Subsequence(r, obs)
    ensures |obs| == 0 ==> r == []
    ensures |obs| > 0 ==> forall o :: o in obs ==> (o in r <==> InBand(o.value, IqrBand(Values(obs))))
    ensures |obs| > 0 ==> forall o :: multiset(r)[o] == if InBand(o.value, IqrBand(Values(obs))) then multiset(obs)[o] else 0
  {
    if |obs| == 0 then []
    else KeepInBand(obs, IqrBand(Values(obs)))
  }

  /** Every row whose value lies between the quartiles survives the filter. */
  lemma InterquartileRowsSurvive(obs: seq<Obs>, i: nat)
    requires i < |obs|
    requires var s := SortValues(Values(obs));
             Q1(s) <= obs[i].value as real <= Q3(s)
    ensures obs[i] in FilterByIqr(obs)
  {
    QuartilesOrdered(SortValues(Values(obs)));
  }

  /** A non-empty column always keeps at least one row. */
  lemma NonEmptyInputKeepsARow(obs: seq<Obs>)
    requires |obs| >= 1
    ensures |FilterByIqr(obs)| >= 1
  {
    var values := Values(obs);
    var s := SortValues(values);
    var k := SomeValueInBand(s);
    assert s[k] in multiset(values);
    var i :| 0 <= i < |values| && values[i] == s[k];
    assert obs[i] in FilterByIqr(obs);
  }
}
