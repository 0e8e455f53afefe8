/** `remove_redundant_features`: rank the features by the importances the fitted model
    reports, take the importance of the injected `random_feature` as a noise threshold, and
    drop every feature ranked strictly below it, together with `random_feature` itself. */
module Pruning {

  import opened Base
  import opened Frames
  import Sorting

  const RandomFeature: string := "random_feature"

  /** One row of the `feat_imps` table. */
  datatype Ranked = Ranked(feature: string, importance: real)

  function NegImportance(r: Ranked): real
  {
    -r.importance
  }

  predicate DistinctFeatures(s: seq<Ranked>)
  {
    forall a, b :: 0 <= a < b < |s| ==> s[a].feature != s[b].feature
  }

  predicate Descending(s: seq<Ranked>)
  {
    forall i, j :: 0 <= i < j < |s| ==> s[i].importance >= s[j].importance
  }

  function FeatureNames(s: seq<Ranked>): (r: seq<string>)
    ensures |r| == |s| && forall k :: 0 <= k < |s| ==> r[k] == s[k].feature
  {
    seq(|s|, k requires 0 <= k < |s| => s[k].feature)
  }

  /** `pd.DataFrame({'feature': features, 'importance': importances})`, whose columns must
      have the same length. */
  function Table(names: seq<string>, imps: seq<real>): (t: seq<Ranked>)
    requires |names| == |imps|
    ensures |t| == |names| && forall i :: 0 <= i < |t| ==> t[i] == Ranked(names[i], imps[i])
  {
    seq(|names|, i requires 0 <= i < |names| => Ranked(names[i], imps[i]))
  }

  /** `sort_values(by='importance', ascending=False)`: the same rows, most important first.
      The relative order of equal importances is left open, as pandas leaves it. */
  function ByImportance(t: seq<Ranked>): (s: seq<Ranked>)
    ensures Descending(s) && multiset(s) == multiset(t)
  {
    var s := Sorting.SortBy(t, NegImportance);
    assert forall i, j :: 0 <= i < j < |s| ==> NegImportance(s[i]) <= NegImportance(s[j]);
    s
  }

  /** The rows strictly below `thresh`, in the order of `s`. */
  function Below(s: seq<Ranked>, thresh: real): (r: seq<Ranked>)
    ensures forall x :: x in r <==> x in s && x.importance < thresh
  {
    if |s| == 0 then []
    else
      assert forall x :: x in s ==> x == s[0] || x in s[1..];
      (if s[0].importance < thresh then [s[0]] else []) + Below(s[1..], thresh)
  }

  /** Filtering keeps the descending order. */
  lemma {:induction false} BelowDescending(s: seq<Ranked>, thresh: real)
    requires Descending(s)
    ensures Descending(Below(s, thresh))
  {
    if |s| > 0 {
      BelowDescending(s[1..], thresh);
      var rest := Below(s[1..], thresh);
      assert forall x :: x in rest ==> x.importance <= s[0].importance;
    }
  }

  lemma DistinctTail(s: seq<Ranked>)
    requires |s| > 0 && DistinctFeatures(s)
    ensures DistinctFeatures(s[1..])
    ensures forall x :: x in s[1..] ==> x.feature != s[0].feature
  {
    forall a, b | 0 <= a < b < |s| - 1 ensures s[1..][a].feature != s[1..][b].feature {
      assert s[a + 1].feature != s[b + 1].feature;
    }
    forall x | x in s[1..] ensures x.feature != s[0].feature {
      var k :| 0 <= k < |s| - 1 && s[1..][k] == x;
      assert s[k + 1].feature != s[0].feature;
    }
  }

  /** Filtering keeps the features distinct. */
  lemma {:induction false} BelowDistinct(s: seq<Ranked>, thresh: real)
    requires DistinctFeatures(s)
    ensures DistinctFeatures(Below(s, thresh))
  {
    if |s| > 0 {
      DistinctTail(s);
      BelowDistinct(s[1..], thresh);
      var rest := Below(s[1..], thresh);
      if s[0].importance < thresh {
        var r := [s[0]] + rest;
        assert Below(s, thresh) == r;
        forall a, b | 0 <= a < b < |r| ensures r[a].feature != r[b].feature {
          assert r[b] == rest[b - 1];
          if a == 0 {
            assert rest[b - 1] in s[1..];
          } else {
            assert r[a] == rest[a - 1];
          }
        }
      } else {
        assert Below(s, thresh) == rest;
      }
    }
  }

  /** The importance the model reports for column `x`. */
  function ImportanceOf(names: seq<string>, imps: seq<real>, x: string): real
    requires |imps| == |names| && x in names
  {
    imps[IndexOf(names, x).value]
  }

  /** The threshold: the importance of `random_feature`. The source reads it off the first
      `random_feature` row of the sorted table; with distinct column labels that row is the
      only one. */
  function Threshold(names: seq<string>, imps: seq<real>): real
    requires |imps| == |names| && RandomFeature in names
  {
    ImportanceOf(names, imps, RandomFeature)
  }

  /** `redundant_features`: the rows of the sorted table strictly below the threshold. */
  function Redundant(names: seq<string>, imps: seq<real>): seq<Ranked>
    requires |imps| == |names| && RandomFeature in names
  {
    Below(ByImportance(Table(names, imps)), Threshold(names, imps))
  }

  /** `listed` names a column exactly when its importance is strictly below
      `random_feature`'s; ties with the threshold are not listed. */
  predicate ListsBelowThreshold(names: seq<string>, imps: seq<real>, listed: seq<string>)
    requires |imps| == |names| && RandomFeature in names
  {
    forall i :: 0 <= i < |names| ==> (names[i] in listed <==> imps[i] < Threshold(names, imps))
  }

  /** `listed` holds columns in non-increasing order of importance. */
  predicate ListsDescending(names: seq<string>, imps: seq<real>, listed: seq<string>)
    requires |imps| == |names|
  {
    forall a, b :: 0 <= a < b < |listed| ==>
      listed[a] in names && listed[b] in names &&
      ImportanceOf(names, imps, listed[a]) >= ImportanceOf(names, imps, listed[b])
  }

  /** The labels of the redundant rows, in the order of the sorted table. */
  function RedundantNames(names: seq<string>, imps: seq<real>): seq<string>
    requires |imps| == |names| && RandomFeature in names
  {
    FeatureNames(Redundant(names, imps))
  }

  /** `to_drop`: the redundant features, most important first, then `random_feature`. With
      distinct column labels, a column is listed before `random_feature` exactly when its
      importance is strictly below `random_feature`'s (ties are kept), and the listed
      columns come in non-increasing order of importance. */
  function ToDrop(names: seq<string>, imps: seq<real>): (r: seq<string>)
    requires |imps| == |names| && RandomFeature in names
    ensures |r| >= 1 && r[|r| - 1] == RandomFeature
    ensures Distinct(names) ==>
              ListsBelowThreshold(names, imps, r[..|r| - 1]) && ListsDescending(names, imps, r[..|r| - 1])
  {
    var d := RedundantNames(names, imps);
    if Distinct(names) then
      RedundantThreshold(names, imps);
      RedundantDescending(names, imps);
      assert (d + [RandomFeature])[..|d|] == d;
      d + [RandomFeature]
    else d + [RandomFeature]
  }

  /** `to_drop` is the redundant rows' labels followed by `random_feature`. */
  lemma ToDropIsRedundant(names: seq<string>, imps: seq<real>)
    requires |imps| == |names| && RandomFeature in names
    ensures var r := ToDrop(names, imps);
            |r| == |Redundant(names, imps)| + 1 && r[|r| - 1] == RandomFeature &&
            forall k :: 0 <= k < |r| - 1 ==> r[k] == Redundant(names, imps)[k].feature
  {
  }

  /** `remove_redundant_features(model, X)` with `importances` the model's
      `feature_importances_`: a table of mismatched length, or no `random_feature` column
      (`.iloc[0]` of an empty selection), is an error; otherwise `X` without `to_drop`. */
  function RemoveRedundantFeatures(x: Frame, importances: seq<real>): (r: Result<(Frame, seq<string>)>)
    requires WellFormed(x)
    ensures |importances| != |x.columns| ==> r == Err(LengthMismatch)
    ensures |importances| == |x.columns| && RandomFeature !in Names(x.columns) ==> r == Err(IndexError)
    ensures r.Ok? <==> |importances| == |x.columns| && RandomFeature in Names(x.columns)
    ensures r.Ok? ==> r.value.1 == ToDrop(Names(x.columns), importances)
    ensures r.Ok? ==> Drop(x, r.value.1) == Ok(r.value.0)
  {
    var names := Names(x.columns);
    if |importances| != |names| then Err(LengthMismatch)
    else if RandomFeature !in names then Err(IndexError)
    else
      var toDrop := ToDrop(names, importances);
      ToDropAreColumns(names, importances);
      Ok((Drop(x, toDrop).value, toDrop))
  }

  /** With distinct labels, the table row of a feature is the one at its own position. */
  lemma TableRow(names: seq<string>, imps: seq<real>, x: Ranked)
    requires |imps| == |names| && Distinct(names) && x in Table(names, imps)
    ensures x.feature in names && x.importance == ImportanceOf(names, imps, x.feature)
  {
    var t := Table(names, imps);
    var p :| 0 <= p < |t| && t[p] == x;
    IndexOfDistinct(names, p);
  }

  /** Each redundant row is a column with its own importance, strictly below the threshold;
      each column strictly below the threshold has a redundant row. */
  lemma RedundantRows(names: seq<string>, imps: seq<real>)
    requires |imps| == |names| && RandomFeature in names && Distinct(names)
    ensures var red := Redundant(names, imps);
            forall k :: 0 <= k < |red| ==>
              red[k].feature in names && red[k].importance == ImportanceOf(names, imps, red[k].feature) &&
              red[k].importance < Threshold(names, imps)
    ensures var red := Redundant(names, imps);
            forall i :: 0 <= i < |names| && imps[i] < Threshold(names, imps) ==>
              exists k :: 0 <= k < |red| && red[k] == Ranked(names[i], imps[i])
  {
    var t := Table(names, imps);
    var s := ByImportance(t);
    var thresh := Threshold(names, imps);
    var red := Below(s, thresh);
    forall k | 0 <= k < |red|
      ensures red[k].feature in names && red[k].importance == ImportanceOf(names, imps, red[k].feature)
    {
      assert red[k] in s;
      assert red[k] in multiset(t);
      TableRow(names, imps, red[k]);
    }
    forall i | 0 <= i < |names| && imps[i] < thresh
      ensures exists k :: 0 <= k < |red| && red[k] == Ranked(names[i], imps[i])
    {
      assert t[i] in multiset(s);
      assert t[i] in red;
    }
  }

  /** Every entry of `to_drop` is a column, so the final `drop` never fails. */
  lemma ToDropAreColumns(names: seq<string>, imps: seq<real>)
    requires |imps| == |names| && RandomFeature in names && Distinct(names)
    ensures forall l :: l in ToDrop(names, imps) ==> l in names
  {
    var d := ToDrop(names, imps);
    ToDropIsRedundant(names, imps);
    RedundantRows(names, imps);
    forall k | 0 <= k < |d| ensures d[k] in names {
    }
  }

  /** Threshold membership: a column is listed as redundant exactly when its importance is
      strictly below `random_feature`'s; ties with the threshold are kept. */
  lemma RedundantThreshold(names: seq<string>, imps: seq<real>)
    requires |imps| == |names| && RandomFeature in names && Distinct(names)
    ensures ListsBelowThreshold(names, imps, RedundantNames(names, imps))
  {
    var thresh := Threshold(names, imps);
    var red := Redundant(names, imps);
    var d := RedundantNames(names, imps);
    RedundantRows(names, imps);
    forall i | 0 <= i < |names| ensures names[i] in d <==> imps[i] < thresh {
      IndexOfDistinct(names, i);
      if imps[i] < thresh {
        var k :| 0 <= k < |red| && red[k] == Ranked(names[i], imps[i]);
        assert d[k] == names[i];
      }
      if names[i] in d {
        var k :| 0 <= k < |d| && d[k] == names[i];
        assert red[k].feature == names[i];
      }
    }
  }

  /** The redundant features are listed in non-increasing order of importance. */
  lemma RedundantDescending(names: seq<string>, imps: seq<real>)
    requires |imps| == |names| && RandomFeature in names && Distinct(names)
    ensures ListsDescending(names, imps, RedundantNames(names, imps))
  {
    var red := Redundant(names, imps);
    var d := RedundantNames(names, imps);
    BelowDescending(ByImportance(Table(names, imps)), Threshold(names, imps));
    RedundantRows(names, imps);
    forall a, b | 0 <= a < b < |d|
      ensures d[a] in names && d[b] in names &&
              ImportanceOf(names, imps, d[a]) >= ImportanceOf(names, imps, d[b])
    {
      assert d[a] == red[a].feature && d[b] == red[b].feature;
      assert red[a].importance >= red[b].importance;
    }
  }

  /** Each feature is listed once: sorting moves rows without duplicating them, and
      `random_feature` is not below its own importance. */
  lemma ToDropDistinct(names: seq<string>, imps: seq<real>)
    requires |imps| == |names| && RandomFeature in names && Distinct(names)
    ensures Distinct(ToDrop(names, imps))
  {
    var t := Table(names, imps);
    var s := ByImportance(t);
    PermutationKeepsFeaturesDistinct(t, s);
    var red := Redundant(names, imps);
    BelowDistinct(s, Threshold(names, imps));
    RedundantRows(names, imps);
    ToDropIsRedundant(names, imps);
    var d := ToDrop(names, imps);
    forall a, b | 0 <= a < b < |d| ensures d[a] != d[b] {
      if b < |d| - 1 {
        assert red[a].feature != red[b].feature;
      }
    }
  }

  lemma {:induction false} AtMostOnce(t: seq<Ranked>, x: Ranked)
    requires DistinctFeatures(t)
    ensures multiset(t)[x] <= 1
  {
    if |t| > 0 {
      var rest := t[1..];
      assert t == [t[0]] + rest;
      assert DistinctFeatures(rest) by {
        forall a, b | 0 <= a < b < |rest| ensures rest[a].feature != rest[b].feature {
          assert t[a + 1].feature != t[b + 1].feature;
        }
      }
      AtMostOnce(rest, x);
      if t[0] == x {
        assert x !in rest by {
          forall k | 0 <= k < |rest| ensures rest[k] != x {
            assert t[0].feature != t[k + 1].feature;
          }
        }
      }
    }
  }

  lemma TwiceCounted<T>(s: seq<T>, a: nat, b: nat)
    requires a < b < |s| && s[a] == s[b]
    ensures multiset(s)[s[a]] >= 2
  {
    assert s == s[..b] + [s[b]] + s[b + 1..];
    assert s[a] in s[..b];
  }

  lemma PermutationKeepsFeaturesDistinct(t: seq<Ranked>, s: seq<Ranked>)
    requires DistinctFeatures(t) && multiset(s) == multiset(t)
    ensures DistinctFeatures(s)
  {
    forall a, b | 0 <= a < b < |s| ensures s[a].feature != s[b].feature {
      if s[a].feature == s[b].feature {
        assert s[a] in multiset(t) && s[b] in multiset(t);
        var p :| 0 <= p < |t| && t[p] == s[a];
        var q :| 0 <= q < |t| && t[q] == s[b];
        assert t[p].feature == t[q].feature;
        TwiceCounted(s, a, b);
        AtMostOnce(t, s[a]);
        assert false;
      }
    }
  }

  /** With distinct names, a feature is dropped exactly when it is `random_feature` or falls
      below the threshold. */
  lemma ToDropMembership(names: seq<string>, imps: seq<real>, i: nat)
    requires |imps| == |names| && RandomFeature in names && Distinct(names) && i < |names|
    ensures names[i] in ToDrop(names, imps) <==>
              names[i] == RandomFeature || imps[i] < Threshold(names, imps)
  {
    var d := ToDrop(names, imps);
    assert d == d[..|d| - 1] + [RandomFeature];
    assert names[i] in d[..|d| - 1] <==> imps[i] < Threshold(names, imps);
  }

  /** What survives the pruning: every feature other than `random_feature` at or above the
      threshold, in the original column order, each with its own cells. */
  lemma PrunedColumns(x: Frame, importances: seq<real>)
    requires WellFormed(x) && RemoveRedundantFeatures(x, importances).Ok?
    ensures var names := Names(x.columns);
            var pruned := RemoveRedundantFeatures(x, importances).value.0;
            |importances| == |names| && RandomFeature in names &&
            Names(pruned.columns) == Without(names, ToDrop(names, importances)) &&
            forall i :: 0 <= i < |names| ==>
              (names[i] in Names(pruned.columns) <==>
                 names[i] != RandomFeature && importances[i] >= Threshold(names, importances))
  {
    var names := Names(x.columns);
    forall i | 0 <= i < |names|
      ensures names[i] in ToDrop(names, importances) <==>
                names[i] == RandomFeature || importances[i] < Threshold(names, importances)
    {
      ToDropMembership(names, importances, i);
    }
  }
}
