/** `encode_categorical`: scikit-learn's OneHotEncoder with its defaults (dense output,
    categories learned from the data in ascending order, unknown categories rejected),
    applied to the columns `select_dtypes('category')` picks. */
module Encoding {

  import opened Base
  import opened Frames
  import Strings

  /** What fitting learns for one categorical column. */
  datatype Learned = Learned(feature: string, categories: seq<string>)

  datatype Encoder = Unfitted | Fitted(learned: seq<Learned>)

  predicate Ascending(s: seq<string>)
  {
    forall i, j :: 0 <= i < j < |s| ==> Strings.Less(s[i], s[j])
  }

  /** A fitted encoder's categories are sorted and free of duplicates. */
  predicate Valid(e: Encoder)
  {
    e.Fitted? ==> forall k :: 0 <= k < |e.learned| ==> Ascending(e.learned[k].categories)
  }

  lemma AscendingDistinct(s: seq<string>)
    requires Ascending(s)
    ensures Distinct(s)
  {
    forall i, j | 0 <= i < j < |s| ensures s[i] != s[j] {
      if s[i] == s[j] {
        Strings.LessIrreflexive(s[i]);
      }
    }
  }

  /** Adds `x` to an ascending sequence, keeping it ascending and duplicate-free. */
  function Insert(x: string, s: seq<string>): (r: seq<string>)
    requires Ascending(s)
    ensures Ascending(r)
    ensures forall v :: v in r <==> v == x || v in s
  {
    if |s| == 0 then [x]
    else if x == s[0] then s
    else if Strings.Less(x, s[0]) then
      assert forall j :: 1 <= j < |s| ==> Strings.Less(x, s[j]) by {
        forall j | 1 <= j < |s| ensures Strings.Less(x, s[j]) {
          Strings.LessTransitive(x, s[0], s[j]);
        }
      }
      [x] + s
    else
      Strings.LessTotal(x, s[0]);
      var rest := Insert(x, s[1..]);
      assert forall v :: v in rest ==> Strings.Less(s[0], v);
      [s[0]] + rest
  }

  /** The distinct values of a column, ascending: what `fit` learns as its categories. */
  function Uniques(values: seq<string>): (r: seq<string>)
    ensures Ascending(r)
    ensures forall v :: v in r <==> v in values
  {
    if |values| == 0 then []
    else
      assert values == values[..|values| - 1] + [values[|values| - 1]];
      Insert(values[|values| - 1], Uniques(values[..|values| - 1]))
  }

  /** Ascending positions, from `from` on, of the categorical (or of the other) columns. */
  function Where(cols: seq<Column>, categorical: bool, from: nat): (r: seq<nat>)
    requires from <= |cols|
    ensures forall k :: 0 <= k < |r| ==> from <= r[k] < |cols| && (cols[r[k]].kind == Categorical) == categorical
    ensures forall k, l :: 0 <= k < l < |r| ==> r[k] < r[l]
    ensures forall c :: from <= c < |cols| && (cols[c].kind == Categorical) == categorical ==> c in r
    decreases |cols| - from
  {
    if from == |cols| then []
    else if (cols[from].kind == Categorical) == categorical then [from] + Where(cols, categorical, from + 1)
    else Where(cols, categorical, from + 1)
  }

  /** Every column is either categorical or not. */
  lemma {:induction false} WhereSplit(cols: seq<Column>, from: nat)
    requires from <= |cols|
    ensures |Where(cols, true, from)| + |Where(cols, false, from)| == |cols| - from
    decreases |cols| - from
  {
    if from < |cols| {
      WhereSplit(cols, from + 1);
      var yes, no := Where(cols, true, from + 1), Where(cols, false, from + 1);
      if cols[from].kind == Categorical {
        assert Where(cols, true, from) == [from] + yes && Where(cols, false, from) == no;
      } else {
        assert Where(cols, true, from) == yes && Where(cols, false, from) == [from] + no;
      }
    }
  }

  /** `df.select_dtypes('category').columns`. */
  function CategoricalNames(f: Frame): seq<string>
  {
    At(Names(f.columns), Where(f.columns, true, 0))
  }

  /** The labels of the columns that are not categorical, in frame order. */
  function OtherNames(f: Frame): seq<string>
  {
    At(Names(f.columns), Where(f.columns, false, 0))
  }

  /** The values of categorical column `p`, top to bottom. */
  function ColumnValues(f: Frame, p: nat): seq<string>
    requires Shaped(f) && p < |f.columns| && f.columns[p].kind == Categorical
  {
    seq(|f.rows|, i requires 0 <= i < |f.rows| => f.rows[i][p].s)
  }

  /** Row `i`'s value in each categorical column. */
  function CategoryRow(f: Frame, i: nat): (r: seq<string>)
    requires Shaped(f) && i < |f.rows|
    ensures |r| == |Where(f.columns, true, 0)|
  {
    var cp := Where(f.columns, true, 0);
    seq(|cp|, k requires 0 <= k < |cp| => f.rows[i][cp[k]].s)
  }

  function Features(learned: seq<Learned>): seq<string>
  {
    seq(|learned|, k requires 0 <= k < |learned| => learned[k].feature)
  }

  /** `ohe.fit(X)`: one entry per categorical column, its categories the column's distinct
      values; scikit-learn rejects a sample-free column. */
  function Fit(f: Frame): (r: Result<Encoder>)
    requires Shaped(f)
    ensures r.Err? <==> |Where(f.columns, true, 0)| > 0 && |f.rows| == 0
    ensures r.Err? ==> r.error == NoSamples
    ensures r.Ok? ==> r.value.Fitted? && Valid(r.value)
    ensures r.Ok? ==> Features(r.value.learned) == CategoricalNames(f)
    ensures r.Ok? ==> forall k, c :: 0 <= k < |Where(f.columns, true, 0)| ==>
              (c in r.value.learned[k].categories <==> c in ColumnValues(f, Where(f.columns, true, 0)[k]))
  {
    var cp := Where(f.columns, true, 0);
    if |cp| > 0 && |f.rows| == 0 then Err(NoSamples)
    else Ok(Fitted(seq(|cp|, k requires 0 <= k < |cp| =>
                     Learned(f.columns[cp[k]].name, Uniques(ColumnValues(f, cp[k]))))))
  }

  /** How many indicator columns the learned categories produce. */
  function Width(learned: seq<Learned>): nat
  {
    if |learned| == 0 then 0 else |learned[0].categories| + Width(learned[1..])
  }

  /** `ohe.get_feature_names_out()`: `<column>_<category>` per column and category. */
  function IndicatorColumns(learned: seq<Learned>): (r: seq<Column>)
    ensures |r| == Width(learned)
    ensures forall c :: 0 <= c < |r| ==> r[c].kind == Numeric
  {
    if |learned| == 0 then []
    else
      var l := learned[0];
      seq(|l.categories|, j requires 0 <= j < |l.categories| => Column(l.feature + "_" + l.categories[j], Numeric))
        + IndicatorColumns(learned[1..])
  }

  function Block(categories: seq<string>, v: string): (r: seq<Cell>)
    ensures |r| == |categories|
  {
    seq(|categories|, j requires 0 <= j < |categories| => Num(if categories[j] == v then 1.0 else 0.0))
  }

  /** The indicator cells of one row whose categorical values are `values`. */
  function Indicators(learned: seq<Learned>, values: seq<string>): (r: seq<Cell>)
    requires |values| == |learned|
    ensures |r| == Width(learned)
    ensures forall c :: 0 <= c < |r| ==> r[c].Num?
  {
    if |learned| == 0 then []
    else Block(learned[0].categories, values[0]) + Indicators(learned[1..], values[1..])
  }

  /** Every categorical value was seen at fit time. */
  predicate AllKnown(learned: seq<Learned>, f: Frame)
    requires Shaped(f) && |learned| == |Where(f.columns, true, 0)|
  {
    forall i, k :: 0 <= i < |f.rows| && 0 <= k < |learned| ==> CategoryRow(f, i)[k] in learned[k].categories
  }

  /** `err` names a column from `k` on and one of its values that was not seen at fit time. */
  predicate Unseen(learned: seq<Learned>, f: Frame, k: nat, err: Error)
    requires Shaped(f) && |learned| == |Where(f.columns, true, 0)|
  {
    err.UnknownCategory? &&
    exists m, i :: k <= m < |learned| && 0 <= i < |f.rows| && learned[m].feature == err.column &&
      CategoryRow(f, i)[m] == err.category && err.category !in learned[m].categories
  }

  /** The first value (column by column, then top to bottom) absent from its categories. */
  function FirstUnknown(learned: seq<Learned>, f: Frame, k: nat): (r: Option<Error>)
    requires Shaped(f) && |learned| == |Where(f.columns, true, 0)| && k <= |learned|
    ensures r.None? <==> forall i, m :: 0 <= i < |f.rows| && k <= m < |learned| ==> CategoryRow(f, i)[m] in learned[m].categories
    ensures r.Some? ==> r.value.UnknownCategory?
    ensures r.Some? ==> Unseen(learned, f, k, r.value)
    decreases |learned| - k
  {
    if k == |learned| then None
    else
      match FirstAbsent(ColumnAt(f, k), learned[k].categories)
      case Some(v) =>
        AbsentSeen(learned, f, k, v);
        Some(UnknownCategory(learned[k].feature, v))
      case None =>
        var rest := FirstUnknown(learned, f, k + 1);
        PresentColumn(learned, f, k, rest);
        rest
  }

  /** The search from the first column finds nothing exactly when every value is known. */
  lemma KnownFromStart(learned: seq<Learned>, f: Frame)
    requires Shaped(f) && |learned| == |Where(f.columns, true, 0)|
    ensures FirstUnknown(learned, f, 0).None? <==> AllKnown(learned, f)
    ensures FirstUnknown(learned, f, 0).Some? ==> FirstUnknown(learned, f, 0).value.UnknownCategory?
  {
  }

  /** Column `k` of the categorical values, top to bottom. */
  function ColumnAt(f: Frame, k: nat): (r: seq<string>)
    requires Shaped(f) && k < |Where(f.columns, true, 0)|
    ensures |r| == |f.rows| && forall i :: 0 <= i < |f.rows| ==> r[i] == CategoryRow(f, i)[k]
  {
    seq(|f.rows|, i requires 0 <= i < |f.rows| => CategoryRow(f, i)[k])
  }

  /** A value of column `k` missing from its categories is an unseen category from `k` on. */
  lemma AbsentSeen(learned: seq<Learned>, f: Frame, k: nat, v: string)
    requires Shaped(f) && |learned| == |Where(f.columns, true, 0)| && k < |learned|
    requires v in ColumnAt(f, k) && v !in learned[k].categories
    ensures Unseen(learned, f, k, UnknownCategory(learned[k].feature, v))
  {
    var col := ColumnAt(f, k);
    var i :| 0 <= i < |col| && col[i] == v;
    assert CategoryRow(f, i)[k] == v;
  }

  /** When column `k` is fully known, the search from `k` is the search from `k + 1`. */
  lemma PresentColumn(learned: seq<Learned>, f: Frame, k: nat, rest: Option<Error>)
    requires Shaped(f) && |learned| == |Where(f.columns, true, 0)| && k < |learned|
    requires forall i :: 0 <= i < |ColumnAt(f, k)| ==> ColumnAt(f, k)[i] in learned[k].categories
    requires rest.None? <==>
               forall i, m :: 0 <= i < |f.rows| && k + 1 <= m < |learned| ==> CategoryRow(f, i)[m] in learned[m].categories
    requires rest.Some? ==> Unseen(learned, f, k + 1, rest.value)
    ensures rest.None? <==>
              forall i, m :: 0 <= i < |f.rows| && k <= m < |learned| ==> CategoryRow(f, i)[m] in learned[m].categories
    ensures rest.Some? ==> Unseen(learned, f, k, rest.value)
  {
    assert forall i :: 0 <= i < |f.rows| ==> CategoryRow(f, i)[k] in learned[k].categories by {
      forall i | 0 <= i < |f.rows| ensures CategoryRow(f, i)[k] in learned[k].categories {
        assert ColumnAt(f, k)[i] == CategoryRow(f, i)[k];
      }
    }
  }

  function FirstAbsent(values: seq<string>, categories: seq<string>): (r: Option<string>)
    ensures r.None? <==> forall i :: 0 <= i < |values| ==> values[i] in categories
    ensures r.Some? ==> r.value in values && r.value !in categories
  {
    if |values| == 0 then None
    else if values[0] !in categories then Some(values[0])
    else FirstAbsent(values[1..], categories)
  }

  /** `ohe.transform(X)` on the categorical columns, concatenated after the other columns:
      NotFitted, a mismatch with the columns seen at fit time, a sample-free column and an
      unseen category are errors. */
  function Apply(e: Encoder, f: Frame): (r: Result<Frame>)
    requires Shaped(f)
    ensures e.Unfitted? ==> r == Err(NotFitted)
    ensures e.Fitted? && Features(e.learned) != CategoricalNames(f) ==> r == Err(FeatureNameMismatch)
    ensures r.Ok? <==>
              e.Fitted? && Features(e.learned) == CategoricalNames(f) &&
              (|Where(f.columns, true, 0)| == 0 || |f.rows| > 0) && AllKnown(e.learned, f)
    ensures r.Err? && e.Fitted? && Features(e.learned) == CategoricalNames(f) && |f.rows| > 0 ==>
              r.error.UnknownCategory?
    ensures r.Ok? ==> Shaped(r.value) && |r.value.rows| == |f.rows|
    ensures r.Ok? ==> Names(r.value.columns) == OtherNames(f) + Names(IndicatorColumns(e.learned))
    ensures r.Ok? ==> forall i, c :: 0 <= i < |f.rows| && 0 <= c < |Where(f.columns, false, 0)| ==>
              r.value.columns[c] == f.columns[Where(f.columns, false, 0)[c]] &&
              r.value.rows[i][c] == f.rows[i][Where(f.columns, false, 0)[c]]
  {
    if e.Unfitted? then Err(NotFitted)
    else if Features(e.learned) != CategoricalNames(f) then Err(FeatureNameMismatch)
    else if |Where(f.columns, true, 0)| > 0 && |f.rows| == 0 then Err(NoSamples)
    else
      KnownFromStart(e.learned, f);
      match FirstUnknown(e.learned, f, 0)
      case Some(err) => Err(err)
      case None =>
        EncodedLayout(e.learned, f);
        Ok(Encoded(e.learned, f))
  }

  /** The transformed frame: the other columns, then the indicator columns. */
  function Encoded(learned: seq<Learned>, f: Frame): (g: Frame)
    requires Shaped(f) && |learned| == |Where(f.columns, true, 0)|
    ensures Shaped(g) && |g.rows| == |f.rows|
  {
    EncodedShape(learned, f);
    Frame(Select(f, Where(f.columns, false, 0)).columns + IndicatorColumns(learned), EncodedRows(learned, f))
  }

  lemma NamesConcat(a: seq<Column>, b: seq<Column>)
    ensures Names(a + b) == Names(a) + Names(b)
  {
  }

  lemma SelectNames(f: Frame, idx: seq<nat>)
    requires Shaped(f)
    requires forall k :: 0 <= k < |idx| ==> idx[k] < |f.columns|
    ensures Names(Select(f, idx).columns) == At(Names(f.columns), idx)
  {
  }

  /** The other columns come first, with their cells; the indicator columns follow. */
  lemma EncodedLayout(learned: seq<Learned>, f: Frame)
    requires Shaped(f) && |learned| == |Where(f.columns, true, 0)|
    ensures Names(Encoded(learned, f).columns) == OtherNames(f) + Names(IndicatorColumns(learned))
    ensures forall i, c :: 0 <= i < |f.rows| && 0 <= c < |Where(f.columns, false, 0)| ==>
              Encoded(learned, f).columns[c] == f.columns[Where(f.columns, false, 0)[c]] &&
              Encoded(learned, f).rows[i][c] == f.rows[i][Where(f.columns, false, 0)[c]]
  {
    EncodedNames(learned, f);
    forall i, c | 0 <= i < |f.rows| && 0 <= c < |Where(f.columns, false, 0)|
      ensures Encoded(learned, f).columns[c] == f.columns[Where(f.columns, false, 0)[c]]
      ensures Encoded(learned, f).rows[i][c] == f.rows[i][Where(f.columns, false, 0)[c]]
    {
      EncodedKeptCell(learned, f, i, c);
    }
  }

  lemma EncodedNames(learned: seq<Learned>, f: Frame)
    requires Shaped(f) && |learned| == |Where(f.columns, true, 0)|
    ensures Names(Encoded(learned, f).columns) == OtherNames(f) + Names(IndicatorColumns(learned))
  {
    var kp := Where(f.columns, false, 0);
    var kept := Select(f, kp);
    assert Encoded(learned, f).columns == kept.columns + IndicatorColumns(learned);
    NamesConcat(kept.columns, IndicatorColumns(learned));
    SelectNames(f, kp);
  }

  /** Row `i` ends with its indicator cells. */
  lemma EncodedTail(learned: seq<Learned>, f: Frame, i: nat)
    requires Shaped(f) && |learned| == |Where(f.columns, true, 0)| && i < |f.rows|
    ensures |Encoded(learned, f).rows[i]| == |Where(f.columns, false, 0)| + Width(learned)
    ensures Encoded(learned, f).rows[i][|Where(f.columns, false, 0)|..] == Indicators(learned, CategoryRow(f, i))
  {
    EncodedParts(learned, f);
  }

  function EncodedRows(learned: seq<Learned>, f: Frame): (rows: seq<seq<Cell>>)
    requires Shaped(f) && |learned| == |Where(f.columns, true, 0)|
    ensures |rows| == |f.rows|
  {
    var kept := Select(f, Where(f.columns, false, 0));
    seq(|f.rows|, i requires 0 <= i < |f.rows| => kept.rows[i] + Indicators(learned, CategoryRow(f, i)))
  }

  lemma EncodedShape(learned: seq<Learned>, f: Frame)
    requires Shaped(f) && |learned| == |Where(f.columns, true, 0)|
    ensures Shaped(Frame(Select(f, Where(f.columns, false, 0)).columns + IndicatorColumns(learned), EncodedRows(learned, f)))
  {
    forall i | 0 <= i < |f.rows|
      ensures var cols := Select(f, Where(f.columns, false, 0)).columns + IndicatorColumns(learned);
              |EncodedRows(learned, f)[i]| == |cols| &&
              forall c :: 0 <= c < |cols| ==> Fits(EncodedRows(learned, f)[i][c], cols[c].kind)
    {
      EncodedRowShaped(learned, f, i);
    }
  }

  /** Encoded row `i` has a cell of the right kind under every column. */
  lemma EncodedRowShaped(learned: seq<Learned>, f: Frame, i: nat)
    requires Shaped(f) && |learned| == |Where(f.columns, true, 0)| && i < |f.rows|
    ensures var cols := Select(f, Where(f.columns, false, 0)).columns + IndicatorColumns(learned);
            |EncodedRows(learned, f)[i]| == |cols| &&
            forall c :: 0 <= c < |cols| ==> Fits(EncodedRows(learned, f)[i][c], cols[c].kind)
  {
    var kept := Select(f, Where(f.columns, false, 0));
    var cols := kept.columns + IndicatorColumns(learned);
    var row := EncodedRows(learned, f)[i];
    var ind := Indicators(learned, CategoryRow(f, i));
    assert row == kept.rows[i] + ind;
    forall c | 0 <= c < |cols| ensures Fits(row[c], cols[c].kind) {
      if c >= |kept.columns| {
        assert row[c] == ind[c - |kept.columns|];
      }
    }
  }

  lemma EncodedParts(learned: seq<Learned>, f: Frame)
    requires Shaped(f) && |learned| == |Where(f.columns, true, 0)|
    ensures var kept := Select(f, Where(f.columns, false, 0));
            forall i :: 0 <= i < |f.rows| ==>
              EncodedRows(learned, f)[i][..|kept.columns|] == kept.rows[i] &&
              EncodedRows(learned, f)[i][|kept.columns|..] == Indicators(learned, CategoryRow(f, i))
  {
  }

  /** `encode_categorical(df, ohe, fit)`: a missing encoder is a fresh, unfitted one;
      fitting mode refits it on this frame before transforming. */
  function EncodeCategorical(f: Frame, ohe: Option<Encoder>, fit: bool): (r: Result<(Frame, Encoder)>)
    requires Shaped(f)
    ensures fit ==> (r.Err? <==> Fit(f).Err?)
    ensures fit && Fit(f).Err? ==> r == Err(Fit(f).error)
    ensures fit && r.Ok? ==> r.value.1 == Fit(f).value
    ensures !fit && ohe.None? ==> r == Err(NotFitted)
    ensures !fit && r.Ok? ==> Some(r.value.1) == ohe
    ensures r.Ok? ==> Apply(r.value.1, f) == Ok(r.value.0)
  {
    if fit then
      var e :- Fit(f);
      FitThenApply(f);
      Ok((Apply(e, f).value, e))
    else
      var e := if ohe.None? then Unfitted else ohe.value;
      var g :- Apply(e, f);
      Ok((g, e))
  }

  /** Transforming the frame an encoder was fitted on never meets an unknown category. */
  lemma FitThenApply(f: Frame)
    requires Shaped(f)
    ensures Fit(f).Ok? ==> Apply(Fit(f).value, f).Ok?
  {
    if Fit(f).Ok? {
      var e := Fit(f).value;
      var cp := Where(f.columns, true, 0);
      forall i, k | 0 <= i < |f.rows| && 0 <= k < |e.learned| ensures CategoryRow(f, i)[k] in e.learned[k].categories {
        assert CategoryRow(f, i)[k] == ColumnValues(f, cp[k])[i];
      }
    }
  }

  /** Fitting and then re-applying the returned encoder in transform mode reproduces the
      same columns and values. */
  lemma FitThenReapply(f: Frame, ohe: Option<Encoder>)
    requires Shaped(f)
    ensures EncodeCategorical(f, ohe, true).Ok? ==>
              EncodeCategorical(f, Some(EncodeCategorical(f, ohe, true).value.1), false) == EncodeCategorical(f, ohe, true)
  {
    FitThenApply(f);
  }

  /** Indicator `j` of column `k` sits after the blocks of the columns before `k`. */
  lemma {:induction false} BlockAt(learned: seq<Learned>, values: seq<string>, k: nat, j: nat)
    requires |values| == |learned| && k < |learned| && j < |learned[k].categories|
    ensures Width(learned[..k]) + j < Width(learned)
    ensures Indicators(learned, values)[Width(learned[..k]) + j] ==
              Num(if learned[k].categories[j] == values[k] then 1.0 else 0.0)
    ensures IndicatorColumns(learned)[Width(learned[..k]) + j].name ==
              learned[k].feature + "_" + learned[k].categories[j]
  {
    if k == 0 {
      assert learned[..0] == [];
    } else {
      BlockAt(learned[1..], values[1..], k - 1, j);
      assert learned[..k][1..] == learned[1..][..k - 1];
      assert Width(learned[..k]) == |learned[0].categories| + Width(learned[1..][..k - 1]);
    }
  }

  /** Exactly one indicator of a block is 1.0: the one of the row's own category. */
  lemma BlockExact(categories: seq<string>, v: string)
    requires Ascending(categories) && v in categories
    ensures exists j :: 0 <= j < |categories| && categories[j] == v && Block(categories, v)[j] == Num(1.0)
    ensures forall j :: 0 <= j < |categories| && categories[j] != v ==> Block(categories, v)[j] == Num(0.0)
    ensures forall j1, j2 :: 0 <= j1 < j2 < |categories| ==>
              Block(categories, v)[j1] == Num(0.0) || Block(categories, v)[j2] == Num(0.0)
  {
    AscendingDistinct(categories);
  }

  /** The indicator labels of one column. */
  function Labels(feature: string, categories: seq<string>): (r: seq<string>)
    ensures |r| == |categories|
  {
    seq(|categories|, j requires 0 <= j < |categories| => feature + "_" + categories[j])
  }

  lemma {:induction false} WidthPrefix(learned: seq<Learned>, k: nat)
    requires k < |learned|
    ensures Width(learned[..k]) + |learned[k].categories| <= Width(learned)
  {
    if k > 0 {
      WidthPrefix(learned[1..], k - 1);
      assert learned[..k][1..] == learned[1..][..k - 1];
    } else {
      assert learned[..0] == [];
    }
  }

  /** A block inside a suffix is a block of the whole sequence, shifted by the suffix's offset. */
  lemma SliceOfSuffix<T>(s: seq<T>, off: nat, t: seq<T>, w: nat, blk: seq<T>)
    requires off <= |s| && s[off..] == t && w + |blk| <= |t|
    requires t[w .. w + |blk|] == blk
    ensures off + w + |blk| <= |s| && s[off + w .. off + w + |blk|] == blk
  {
    assert s[off + w .. off + w + |blk|] == t[w .. w + |blk|];
  }

  lemma BlockAfter(s: seq<Cell>, off: nat, t: seq<Cell>, w: nat, categories: seq<string>, v: string)
    requires off <= |s| && s[off..] == t && BlockFrom(t, w, categories, v)
    ensures BlockFrom(s, off + w, categories, v)
  {
    SliceOfSuffix(s, off, t, w, Block(categories, v));
  }

  lemma LabelledAfter(s: seq<string>, off: nat, t: seq<string>, w: nat, feature: string, categories: seq<string>)
    requires off <= |s| && s[off..] == t && LabelledFrom(t, w, feature, categories)
    ensures LabelledFrom(s, off + w, feature, categories)
  {
    SliceOfSuffix(s, off, t, w, Labels(feature, categories));
  }

  /** Column `k`'s block of indicator cells. */
  lemma CellsBlock(learned: seq<Learned>, values: seq<string>, k: nat)
    requires |values| == |learned| && k < |learned|
    ensures Width(learned[..k]) + |learned[k].categories| <= Width(learned)
    ensures BlockFrom(Indicators(learned, values), Width(learned[..k]), learned[k].categories, values[k])
  {
    var w := Width(learned[..k]);
    var n := |learned[k].categories|;
    WidthPrefix(learned, k);
    var ind := Indicators(learned, values);
    var blk := Block(learned[k].categories, values[k]);
    forall j | 0 <= j < n ensures ind[w + j] == blk[j] {
      BlockCell(learned, values, k, j);
    }
    assert ind[w .. w + n] == blk;
  }

  lemma BlockCell(learned: seq<Learned>, values: seq<string>, k: nat, j: nat)
    requires |values| == |learned| && k < |learned| && j < |learned[k].categories|
    ensures Width(learned[..k]) + j < Width(learned)
    ensures Indicators(learned, values)[Width(learned[..k]) + j] == Block(learned[k].categories, values[k])[j]
  {
    BlockAt(learned, values, k, j);
  }

  lemma LabelCell(learned: seq<Learned>, k: nat, j: nat)
    requires k < |learned| && j < |learned[k].categories|
    ensures Width(learned[..k]) + j < Width(learned)
    ensures Names(IndicatorColumns(learned))[Width(learned[..k]) + j] == Labels(learned[k].feature, learned[k].categories)[j]
  {
    BlockAt(learned, seq(|learned|, m => ""), k, j);
  }

  /** Column `k`'s block of indicator labels. */
  lemma LabelsBlock(learned: seq<Learned>, k: nat)
    requires k < |learned|
    ensures Width(learned[..k]) + |learned[k].categories| <= Width(learned)
    ensures LabelledFrom(Names(IndicatorColumns(learned)), Width(learned[..k]), learned[k].feature, learned[k].categories)
  {
    var w := Width(learned[..k]);
    var n := |learned[k].categories|;
    WidthPrefix(learned, k);
    var labels := Names(IndicatorColumns(learned));
    var lab := Labels(learned[k].feature, learned[k].categories);
    forall j | 0 <= j < n ensures labels[w + j] == lab[j] {
      LabelCell(learned, k, j);
    }
    assert labels[w .. w + n] == lab;
  }

  lemma EncodedNamesTail(learned: seq<Learned>, f: Frame)
    requires Shaped(f) && |learned| == |Where(f.columns, true, 0)|
    ensures |Where(f.columns, false, 0)| <= |Names(Encoded(learned, f).columns)|
    ensures Names(Encoded(learned, f).columns)[|Where(f.columns, false, 0)|..] == Names(IndicatorColumns(learned))
  {
    EncodedNames(learned, f);
    var a := OtherNames(f);
    var b := Names(IndicatorColumns(learned));
    assert |a| == |Where(f.columns, false, 0)|;
    assert (a + b)[|a|..] == b;
  }

  /** Where column `k`'s indicators start in a transformed row: after the other columns
      and the blocks of the categorical columns before it. */
  function Start(f: Frame, learned: seq<Learned>, k: nat): nat
    requires k <= |learned|
  {
    |Where(f.columns, false, 0)| + Width(learned[..k])
  }

  /** From position `start` on, `names` holds the labels of `feature`'s indicators. */
  predicate LabelledFrom(names: seq<string>, start: nat, feature: string, categories: seq<string>)
  {
    start + |categories| <= |names| && names[start .. start + |categories|] == Labels(feature, categories)
  }

  /** In the transformed frame, column `k`'s indicators are labelled `<column>_<category>`. */
  lemma EncodedLabels(learned: seq<Learned>, f: Frame, r: Frame, k: nat)
    requires Shaped(f) && |learned| == |Where(f.columns, true, 0)| && k < |learned|
    requires r == Encoded(learned, f)
    ensures LabelledFrom(Names(r.columns), Start(f, learned, k), learned[k].feature, learned[k].categories)
  {
    var names := Names(r.columns);
    var kp := |Where(f.columns, false, 0)|;
    EncodedNamesTail(learned, f);
    LabelsBlock(learned, k);
    LabelledAfter(names, kp, Names(IndicatorColumns(learned)), Width(learned[..k]), learned[k].feature, learned[k].categories);
  }

  /** In row `i` of the transformed frame, column `k`'s indicators are its block. */
  lemma EncodedCells(learned: seq<Learned>, f: Frame, i: nat, k: nat)
    requires Shaped(f) && |learned| == |Where(f.columns, true, 0)|
    requires i < |f.rows| && k < |learned|
    ensures BlockFrom(Encoded(learned, f).rows[i], Start(f, learned, k), learned[k].categories, CategoryRow(f, i)[k])
  {
    var row := Encoded(learned, f).rows[i];
    var kp := |Where(f.columns, false, 0)|;
    var values := CategoryRow(f, i);
    EncodedTail(learned, f, i);
    CellsBlock(learned, values, k);
    BlockAfter(row, kp, Indicators(learned, values), Width(learned[..k]), learned[k].categories, values[k]);
  }

  /** Cell `c` of row `i`, for `c` among the other columns. */
  lemma EncodedKeptCell(learned: seq<Learned>, f: Frame, i: nat, c: nat)
    requires Shaped(f) && |learned| == |Where(f.columns, true, 0)|
    requires i < |f.rows| && c < |Where(f.columns, false, 0)|
    ensures c < |Encoded(learned, f).columns| && c < |Encoded(learned, f).rows[i]|
    ensures Encoded(learned, f).columns[c] == f.columns[Where(f.columns, false, 0)[c]]
    ensures Encoded(learned, f).rows[i][c] == f.rows[i][Where(f.columns, false, 0)[c]]
  {
    var kp := Where(f.columns, false, 0);
    var kept := Select(f, kp);
    var g := Encoded(learned, f);
    assert g.columns == kept.columns + IndicatorColumns(learned);
    assert g.rows[i] == kept.rows[i] + Indicators(learned, CategoryRow(f, i));
  }

  lemma EncodedKeepsLookup(learned: seq<Learned>, f: Frame, i: nat, name: string)
    requires WellFormed(f) && |learned| == |Where(f.columns, true, 0)|
    requires Distinct(Names(Encoded(learned, f).columns))
    requires i < |f.rows| && name in OtherNames(f)
    ensures Lookup(Encoded(learned, f), i, name) == Lookup(f, i, name)
  {
    var r := Encoded(learned, f);
    var kp := Where(f.columns, false, 0);
    var others := OtherNames(f);
    var c :| 0 <= c < |others| && others[c] == name;
    assert f.columns[kp[c]].name == name;
    EncodedKeptCell(learned, f, i, c);
    assert r.columns[c].name == name;
    LookupAt(r, i, c);
    LookupAt(f, i, kp[c]);
  }

  /** A column that is not categorical keeps its cells under its own label. */
  lemma ApplyKeepsLookup(e: Encoder, f: Frame, i: nat, name: string)
    requires WellFormed(f) && Apply(e, f).Ok? && Distinct(Names(Apply(e, f).value.columns))
    requires i < |f.rows| && name in OtherNames(f)
    ensures Lookup(Apply(e, f).value, i, name) == Lookup(f, i, name)
  {
    ApplyEncodes(e, f);
    EncodedKeepsLookup(e.learned, f, i, name);
  }

  /** A successful transform is the encoded frame, and every category in it was learned. */
  lemma ApplyEncodes(e: Encoder, f: Frame)
    requires Shaped(f) && Apply(e, f).Ok?
    ensures e.Fitted? && |e.learned| == |Where(f.columns, true, 0)|
    ensures Apply(e, f).value == Encoded(e.learned, f)
  {
    assert |Features(e.learned)| == |e.learned|;
  }

  /** Cells `start ..` of `row` indicate `v` among `categories`: the cell of `v` is 1.0 and
      every other one is 0.0. */
  predicate OneHotAt(row: seq<Cell>, start: nat, categories: seq<string>, v: string)
    requires start + |categories| <= |row|
  {
    (exists j :: 0 <= j < |categories| && categories[j] == v && row[start + j] == Num(1.0)) &&
    (forall j :: 0 <= j < |categories| && categories[j] != v ==> row[start + j] == Num(0.0))
  }

  /** From position `start` on, `row` holds the indicator block of category `v`. */
  predicate BlockFrom(row: seq<Cell>, start: nat, categories: seq<string>, v: string)
  {
    start + |categories| <= |row| && row[start .. start + |categories|] == Block(categories, v)
  }

  lemma BlockOneHot(row: seq<Cell>, start: nat, categories: seq<string>, v: string)
    requires Ascending(categories) && v in categories
    requires BlockFrom(row, start, categories, v)
    ensures OneHotAt(row, start, categories, v)
  {
    BlockExact(categories, v);
    var slice := row[start .. start + |categories|];
    forall j | 0 <= j < |categories| ensures row[start + j] == slice[j] {
    }
  }

  lemma EncodedOneHot(learned: seq<Learned>, f: Frame, i: nat, k: nat)
    requires Shaped(f) && |learned| == |Where(f.columns, true, 0)|
    requires i < |f.rows| && k < |learned|
    requires Ascending(learned[k].categories) && CategoryRow(f, i)[k] in learned[k].categories
    ensures Start(f, learned, k) + |learned[k].categories| <= |Encoded(learned, f).rows[i]|
    ensures OneHotAt(Encoded(learned, f).rows[i], Start(f, learned, k), learned[k].categories, CategoryRow(f, i)[k])
  {
    EncodedCells(learned, f, i, k);
    BlockOneHot(Encoded(learned, f).rows[i], Start(f, learned, k), learned[k].categories, CategoryRow(f, i)[k]);
  }

  /** The indicator columns of categorical column `k` are labelled `<column>_<category>`,
      one per learned category, in ascending order of category. */
  lemma OneHotLabels(e: Encoder, f: Frame, r: Frame, k: nat)
    requires Shaped(f) && Apply(e, f) == Ok(r) && k < |Where(f.columns, true, 0)|
    ensures e.Fitted? && k < |e.learned|
    ensures LabelledFrom(Names(r.columns), Start(f, e.learned, k), e.learned[k].feature, e.learned[k].categories)
  {
    ApplyIs(e, f, r);
    EncodedLabels(e.learned, f, r, k);
  }

  lemma ApplyIs(e: Encoder, f: Frame, r: Frame)
    requires Shaped(f) && Apply(e, f) == Ok(r)
    ensures e.Fitted? && |e.learned| == |Where(f.columns, true, 0)| && r == Encoded(e.learned, f)
  {
    ApplyEncodes(e, f);
  }

  /** One-hot exactness: in every row, exactly one indicator of a categorical column is
      1.0, the one of the row's own category (the categories are distinct); the others
      are 0.0. */
  lemma OneHotExact(e: Encoder, f: Frame, r: Frame, i: nat, k: nat)
    requires Shaped(f) && Valid(e) && Apply(e, f) == Ok(r)
    requires i < |f.rows| && k < |Where(f.columns, true, 0)|
    ensures e.Fitted? && k < |e.learned| && Distinct(e.learned[k].categories)
    ensures Start(f, e.learned, k) + |e.learned[k].categories| <= |r.rows[i]|
    ensures OneHotAt(r.rows[i], Start(f, e.learned, k), e.learned[k].categories, CategoryRow(f, i)[k])
  {
    ApplyKnown(e, f, i, k);
    AscendingDistinct(e.learned[k].categories);
    EncodedOneHot(e.learned, f, i, k);
  }

  /** A successful transform saw the row's category among the learned, ascending ones. */
  lemma ApplyKnown(e: Encoder, f: Frame, i: nat, k: nat)
    requires Shaped(f) && Valid(e) && Apply(e, f).Ok?
    requires i < |f.rows| && k < |Where(f.columns, true, 0)|
    ensures e.Fitted? && |e.learned| == |Where(f.columns, true, 0)|
    ensures Apply(e, f).value == Encoded(e.learned, f)
    ensures Ascending(e.learned[k].categories) && CategoryRow(f, i)[k] in e.learned[k].categories
  {
    ApplyEncodes(e, f);
    assert AllKnown(e.learned, f);
  }

  /** The indicator labels are the labels of the first column's categories, then the rest. */
  lemma IndicatorNamesSplit(learned: seq<Learned>)
    requires |learned| > 0
    ensures Names(IndicatorColumns(learned)) ==
              Labels(learned[0].feature, learned[0].categories) + Names(IndicatorColumns(learned[1..]))
  {
    var l := learned[0];
    var head := seq(|l.categories|, j requires 0 <= j < |l.categories| => Column(l.feature + "_" + l.categories[j], Numeric));
    assert IndicatorColumns(learned) == head + IndicatorColumns(learned[1..]);
    var lab := Labels(l.feature, l.categories);
    forall j | 0 <= j < |head| ensures Names(head)[j] == lab[j] {
    }
    assert Names(head) == lab;
    NamesConcat(head, IndicatorColumns(learned[1..]));
  }

  /** Every label of a column's block starts with `<column>_`. */
  lemma LabelPrefix(feature: string, categories: seq<string>, j: nat)
    requires j < |categories|
    ensures |feature| + 1 <= |Labels(feature, categories)[j]|
    ensures Labels(feature, categories)[j][..|feature| + 1] == feature + "_"
  {
    assert Labels(feature, categories)[j] == (feature + "_") + categories[j];
  }

  /** A label starts with its column's first character and is longer than the column's label. */
  lemma LabelHead(feature: string, categories: seq<string>, j: nat)
    requires j < |categories| && |feature| > 0
    ensures |Labels(feature, categories)[j]| > |feature|
    ensures Labels(feature, categories)[j][0] == feature[0]
  {
    assert Labels(feature, categories)[j] == feature + ("_" + categories[j]);
  }

  /** Distinct categories give distinct labels. */
  lemma LabelsDistinct(feature: string, categories: seq<string>)
    requires Distinct(categories)
    ensures Distinct(Labels(feature, categories))
  {
    var lab := Labels(feature, categories);
    var p := feature + "_";
    forall a, b | 0 <= a < b < |lab| ensures lab[a] != lab[b] {
      assert lab[a] == p + categories[a] && lab[b] == p + categories[b];
      assert (p + categories[a])[|p|..] == categories[a];
      assert (p + categories[b])[|p|..] == categories[b];
    }
  }

  /** The other columns' labels are distinct when all labels are. */
  lemma OtherNamesDistinct(f: Frame)
    requires Distinct(Names(f.columns))
    ensures Distinct(OtherNames(f))
  {
    var kp := Where(f.columns, false, 0);
    var others := OtherNames(f);
    forall a, b | 0 <= a < b < |others| ensures others[a] != others[b] {
      assert kp[a] < kp[b];
    }
  }

  /** A column that is not categorical is among the other columns. */
  lemma OtherNamesHas(f: Frame, p: nat)
    requires p < |f.columns| && f.columns[p].kind != Categorical
    ensures f.columns[p].name in OtherNames(f)
  {
    var kp := Where(f.columns, false, 0);
    assert p in kp;
    var k :| 0 <= k < |kp| && kp[k] == p;
    assert OtherNames(f)[k] == f.columns[p].name;
  }

  /** An other column's label is the label of a column that is not categorical. */
  lemma OtherNamesFrom(f: Frame, x: string)
    requires x in OtherNames(f)
    ensures exists p :: 0 <= p < |f.columns| && f.columns[p].kind != Categorical && f.columns[p].name == x
  {
    var kp := Where(f.columns, false, 0);
    var k :| 0 <= k < |kp| && OtherNames(f)[k] == x;
    assert f.columns[kp[k]].name == x;
  }
}
