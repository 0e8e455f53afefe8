/** The training flow of `src/transform.py`'s `main`: outlier filter, feature extraction with
    the noise column, supervised transform, one-hot encoding fitted on the frame, the
    target split off, the most recent rolling statistics carried over, and the features
    ranked below the noise column pruned; plus the time-series split and fold averaging of
    `train`. */
module Training {

  import opened Base
  import opened Frames
  import Outliers
  import Features
  import Supervised
  import Encoding
  import Pruning
  import CrossValidation

  /** `extract_features`' default `window_size`. */
  const Window: nat := 7

  /** `main`'s `n_splits` for the cross-validation of `train`. */
  const Splits: nat := 9

  /** The columns of the supervised training frame, in order. */
  const SupervisedColumns: seq<Column> := [
    Column("timezone", Categorical), Column("value", Numeric),
    Column("year", Numeric), Column("month", Numeric), Column("day", Numeric),
    Column("day_of_week", Categorical), Column("quarter", Numeric),
    Column("week_of_year", Numeric), Column("is_weekend", Numeric),
    Column("rolling_mean", Numeric), Column("rolling_std", Numeric),
    Column("random_feature", Numeric), Column("lag", Numeric)]

  /** The labels of the columns that are (or are not) categorical, from `from` on. */
  function KindNames(cols: seq<Column>, categorical: bool, from: nat): seq<string>
    requires from <= |cols|
    decreases |cols| - from
  {
    if from == |cols| then []
    else (if (cols[from].kind == Categorical) == categorical then [cols[from].name] else [])
           + KindNames(cols, categorical, from + 1)
  }

  lemma {:induction false} WhereNames(cols: seq<Column>, categorical: bool, from: nat)
    requires from <= |cols|
    ensures At(Names(cols), Encoding.Where(cols, categorical, from)) == KindNames(cols, categorical, from)
    decreases |cols| - from
  {
    if from < |cols| {
      WhereNames(cols, categorical, from + 1);
      var rest := Encoding.Where(cols, categorical, from + 1);
      if (cols[from].kind == Categorical) == categorical {
        var w := [from] + rest;
        assert Encoding.Where(cols, categorical, from) == w;
        assert w[1..] == rest;
        assert At(Names(cols), w) == [Names(cols)[from]] + At(Names(cols), rest);
        assert KindNames(cols, categorical, from) == [cols[from].name] + KindNames(cols, categorical, from + 1);
      } else {
        assert Encoding.Where(cols, categorical, from) == rest;
        assert KindNames(cols, categorical, from) == KindNames(cols, categorical, from + 1);
      }
    }
  }

  lemma CategoricalKinds()
    ensures KindNames(SupervisedColumns, true, 0) == ["timezone", "day_of_week"]
  {
    var c := SupervisedColumns;
    assert KindNames(c, true, 13) == [];
    assert KindNames(c, true, 12) == [];
    assert KindNames(c, true, 11) == [];
    assert KindNames(c, true, 10) == [];
    assert KindNames(c, true, 9) == [];
    assert KindNames(c, true, 8) == [];
    assert KindNames(c, true, 7) == [];
    assert KindNames(c, true, 6) == [];
    assert KindNames(c, true, 5) == ["day_of_week"];
    assert KindNames(c, true, 4) == ["day_of_week"];
    assert KindNames(c, true, 3) == ["day_of_week"];
    assert KindNames(c, true, 2) == ["day_of_week"];
    assert KindNames(c, true, 1) == ["day_of_week"];
    assert KindNames(c, true, 0) == ["timezone", "day_of_week"];
  }

  /** The columns of the supervised frame that are not categorical, in order. */
  lemma SupervisedOtherKinds()
    ensures KindNames(SupervisedColumns, false, 0) ==
              ["value", "year", "month", "day", "quarter", "week_of_year", "is_weekend",
               "rolling_mean", "rolling_std", "random_feature", "lag"]
  {
    var c := SupervisedColumns;
    SupervisedLayoutIs(c);
    OtherKindsOf(c);
  }

  /** The thirteen supervised columns, one fact each. */
  predicate SupervisedAt(c: seq<Column>)
  {
    |c| == 13 &&
    c[0] == Column("timezone", Categorical) && c[1] == Column("value", Numeric) &&
    c[2] == Column("year", Numeric) && c[3] == Column("month", Numeric) && c[4] == Column("day", Numeric) &&
    c[5] == Column("day_of_week", Categorical) && c[6] == Column("quarter", Numeric) &&
    c[7] == Column("week_of_year", Numeric) && c[8] == Column("is_weekend", Numeric) &&
    c[9] == Column("rolling_mean", Numeric) && c[10] == Column("rolling_std", Numeric) &&
    c[11] == Column("random_feature", Numeric) && c[12] == Column("lag", Numeric)
  }

  lemma SupervisedLayoutIs(c: seq<Column>)
    requires c == SupervisedColumns
    ensures SupervisedAt(c)
  {
  }

  lemma OtherKindsOf(c: seq<Column>)
    requires SupervisedAt(c)
    ensures KindNames(c, false, 0) ==
              ["value", "year", "month", "day", "quarter", "week_of_year", "is_weekend",
               "rolling_mean", "rolling_std", "random_feature", "lag"]
  {
    OtherTailOf(c);
    assert KindNames(c, false, 5) == KindNames(c, false, 6);
    assert KindNames(c, false, 4) == ["day"] + KindNames(c, false, 5);
    assert KindNames(c, false, 3) == ["month"] + KindNames(c, false, 4);
    assert KindNames(c, false, 2) == ["year"] + KindNames(c, false, 3);
    assert KindNames(c, false, 1) == ["value"] + KindNames(c, false, 2);
    assert KindNames(c, false, 0) == KindNames(c, false, 1);
  }

  lemma OtherTailOf(c: seq<Column>)
    requires SupervisedAt(c)
    ensures KindNames(c, false, 6) ==
              ["quarter", "week_of_year", "is_weekend", "rolling_mean", "rolling_std", "random_feature", "lag"]
  {
    assert KindNames(c, false, 13) == [];
    assert KindNames(c, false, 12) == ["lag"] + KindNames(c, false, 13);
    assert KindNames(c, false, 11) == ["random_feature"] + KindNames(c, false, 12);
    assert KindNames(c, false, 10) == ["rolling_std"] + KindNames(c, false, 11);
    assert KindNames(c, false, 9) == ["rolling_mean"] + KindNames(c, false, 10);
    assert KindNames(c, false, 8) == ["is_weekend"] + KindNames(c, false, 9);
    assert KindNames(c, false, 7) == ["week_of_year"] + KindNames(c, false, 8);
    assert KindNames(c, false, 6) == ["quarter"] + KindNames(c, false, 7);
  }

  /** Every column survives a drop of labels it does not carry. */
  lemma KeptAll(cols: seq<Column>, labels: seq<string>)
    requires forall k :: 0 <= k < |cols| ==> cols[k].name !in labels
    ensures Kept(cols, labels) == cols
  {
    if |cols| > 0 {
      KeptAll(cols[1..], labels);
    }
  }

  /** The supervised frame built from the observations that survived the outlier filter. */
  function Supervise(kept: seq<Obs>, std: seq<int> -> real, draw: Features.Draws): Result<Frame>
  {
    Supervised.TransformToSupervised(Features.ExtractFeaturesWithNoise(kept, Window, Features.Training(std), draw))
  }

  /** The columns of the training extraction. */
  const NoisyColumns: seq<Column> := Features.DateColumns + Features.RollingColumns + [Column("random_feature", Numeric)]

  lemma LagAbsent()
    ensures "lag" !in Names(NoisyColumns)
  {
    var names := Names(NoisyColumns);
    forall k | 0 <= k < |NoisyColumns| ensures names[k] != "lag" {
    }
  }

  lemma NoPeriod()
    ensures forall k :: 0 <= k < |SupervisedColumns| ==> SupervisedColumns[k].name !in ["period"]
  {
  }

  /** Past `period`, the training extraction's columns and the lag are the supervised ones. */
  lemma LaggedTail()
    ensures (NoisyColumns + [Column("lag", Numeric)])[1..] == SupervisedColumns
  {
    var t := (NoisyColumns + [Column("lag", Numeric)])[1..];
    assert |t| == |SupervisedColumns|;
    forall k | 0 <= k < |t| ensures t[k] == SupervisedColumns[k] {
    }
  }

  /** A numeric `lag` is appended, then `period` removed. */
  lemma LaggedLayout()
    ensures Kept(Supervised.WithLagColumn(NoisyColumns, Numeric), ["period"]) == SupervisedColumns
  {
    LagAbsent();
    var lagged := NoisyColumns + [Column("lag", Numeric)];
    assert Supervised.WithLagColumn(NoisyColumns, Numeric) == lagged;
    assert lagged[0].name == "period";
    assert Kept(lagged, ["period"]) == Kept(lagged[1..], ["period"]);
    LaggedTail();
    NoPeriod();
    KeptAll(SupervisedColumns, ["period"]);
  }

  /** The supervised frame always exists, has the same thirteen columns, and one row per
      observation past the first `Window`: six go to the rolling window, one to the lag. */
  lemma SupervisedLayout(kept: seq<Obs>, std: seq<int> -> real, draw: Features.Draws)
    ensures Supervise(kept, std, draw).Ok?
    ensures WellFormed(Supervise(kept, std, draw).value)
    ensures Supervise(kept, std, draw).value.columns == SupervisedColumns
    ensures |Supervise(kept, std, draw).value.rows| == if |kept| >= Window then |kept| - Window else 0
  {
    var g := Features.ExtractFeaturesWithNoise(kept, Window, Features.Training(std), draw);
    assert g.columns == NoisyColumns;
    NoisyValue(g);
    LaggedLayout();
  }

  /** The training extraction has a `period` and a numeric `value`, its third column. */
  lemma NoisyValue(g: Frame)
    requires WellFormed(g) && g.columns == NoisyColumns
    ensures "period" in Names(g.columns) && "value" in Names(g.columns)
    ensures Supervised.ValueKind(g) == Numeric
  {
    var names := Names(g.columns);
    assert names[0] == "period" && names[2] == "value";
    IndexOfDistinct(names, 2);
  }

  /** A label that cannot be an indicator label of `timezone` (which starts with `t`) nor
      of `day_of_week` (which starts with `d` and has at least twelve characters). */
  predicate Plain(x: string)
  {
    |x| > 0 && x[0] != 't' && (x[0] == 'd' ==> |x| < 12)
  }

  /** Every label of a column that is not categorical is plain. */
  predicate PlainOthers(cols: seq<Column>)
  {
    forall p :: 0 <= p < |cols| && cols[p].kind != Categorical ==> Plain(cols[p].name)
  }

  lemma SupervisedPlain()
    ensures PlainOthers(SupervisedColumns)
  {
  }

  /** The categorical columns of the supervised frame, in frame order. */
  lemma SupervisedCategoricals(g: Frame)
    requires g.columns == SupervisedColumns
    ensures Encoding.CategoricalNames(g) == ["timezone", "day_of_week"]
  {
    WhereNames(SupervisedColumns, true, 0);
    CategoricalKinds();
  }

  /** Encoding a frame whose other labels are plain yields distinct labels: the other labels are distinct
      and plain, and each indicator block is distinct and starts with its column's label. */
  lemma {:induction false} EncodedLabelsDistinct(g: Frame, learned: seq<Encoding.Learned>)
    requires WellFormed(g) && PlainOthers(g.columns)
    requires |learned| == 2 && learned[0].feature == "timezone" && learned[1].feature == "day_of_week"
    requires Distinct(learned[0].categories) && Distinct(learned[1].categories)
    ensures Distinct(Encoding.OtherNames(g) + Names(Encoding.IndicatorColumns(learned)))
  {
    var others := Encoding.OtherNames(g);
    var tz := Encoding.Labels("timezone", learned[0].categories);
    var dow := Encoding.Labels("day_of_week", learned[1].categories);
    Encoding.IndicatorNamesSplit(learned);
    Encoding.IndicatorNamesSplit(learned[1..]);
    assert learned[1..][1..] == [];
    assert Names(Encoding.IndicatorColumns(learned)) == tz + dow;
    Encoding.OtherNamesDistinct(g);
    Encoding.LabelsDistinct("timezone", learned[0].categories);
    Encoding.LabelsDistinct("day_of_week", learned[1].categories);
    forall a | 0 <= a < |others| ensures Plain(others[a]) {
      Encoding.OtherNamesFrom(g, others[a]);
      var p :| 0 <= p < |g.columns| && g.columns[p].kind != Categorical && g.columns[p].name == others[a];
    }
    forall j | 0 <= j < |tz| ensures tz[j][0] == 't' {
      Encoding.LabelHead("timezone", learned[0].categories, j);
    }
    forall j | 0 <= j < |dow| ensures dow[j][0] == 'd' && |dow[j]| >= 12 {
      Encoding.LabelHead("day_of_week", learned[1].categories, j);
    }
    DistinctConcat(tz, dow);
    var blocks := tz + dow;
    forall a, b | 0 <= a < |others| && 0 <= b < |blocks| ensures others[a] != blocks[b] {
      if b < |tz| {
        assert blocks[b] == tz[b];
      } else {
        assert blocks[b] == dow[b - |tz|];
      }
    }
    DistinctConcat(others, blocks);
  }

  /** A plain label is no indicator label of `timezone` or `day_of_week`. */
  lemma PlainNotIndicator(learned: seq<Encoding.Learned>, x: string)
    requires |learned| == 2 && learned[0].feature == "timezone" && learned[1].feature == "day_of_week"
    requires Plain(x)
    ensures x !in Names(Encoding.IndicatorColumns(learned))
  {
    var tz := Encoding.Labels("timezone", learned[0].categories);
    var dow := Encoding.Labels("day_of_week", learned[1].categories);
    Encoding.IndicatorNamesSplit(learned);
    Encoding.IndicatorNamesSplit(learned[1..]);
    assert learned[1..][1..] == [];
    assert Names(Encoding.IndicatorColumns(learned)) == tz + dow;
    forall j | 0 <= j < |tz| ensures tz[j] != x {
      Encoding.LabelHead("timezone", learned[0].categories, j);
    }
    forall j | 0 <= j < |dow| ensures dow[j] != x {
      Encoding.LabelHead("day_of_week", learned[1].categories, j);
    }
  }

  /** The frame one-hot encoding produces from the supervised frame is well formed, its
      learned columns are `timezone` and `day_of_week`, and it keeps `value`. */
  lemma EncodedFrame(g: Frame, e: Encoding.Encoder)
    requires WellFormed(g) && g.columns == SupervisedColumns
    requires Encoding.Valid(e) && Encoding.Apply(e, g).Ok?
    ensures e.Fitted? && Encoding.Features(e.learned) == ["timezone", "day_of_week"]
    ensures WellFormed(Encoding.Apply(e, g).value)
    ensures "value" in Names(Encoding.Apply(e, g).value.columns)
    ensures "random_feature" in Names(Encoding.Apply(e, g).value.columns)
  {
    SupervisedCategoricals(g);
    var learned := e.learned;
    assert |learned| == 2 by {
      assert |Encoding.Features(learned)| == |learned|;
    }
    assert learned[0].feature == Encoding.Features(learned)[0];
    assert learned[1].feature == Encoding.Features(learned)[1];
    Encoding.AscendingDistinct(learned[0].categories);
    Encoding.AscendingDistinct(learned[1].categories);
    SupervisedPlain();
    EncodedLabelsDistinct(g, learned);
    ValueIsOther(g);
    OtherEncoded(g, e, "value");
    RandomIsOther(g);
    OtherEncoded(g, e, "random_feature");
  }

  /** A column the encoder keeps is a column of its output. */
  lemma OtherEncoded(g: Frame, e: Encoding.Encoder, name: string)
    requires Shaped(g) && Encoding.Apply(e, g).Ok? && name in Encoding.OtherNames(g)
    ensures name in Names(Encoding.Apply(e, g).value.columns)
  {
    var k :| 0 <= k < |Encoding.OtherNames(g)| && Encoding.OtherNames(g)[k] == name;
    assert Names(Encoding.Apply(e, g).value.columns)[k] == name;
  }

  lemma ValueIsOther(g: Frame)
    requires g.columns == SupervisedColumns
    ensures "value" in Encoding.OtherNames(g)
  {
    assert g.columns[1] == Column("value", Numeric);
    Encoding.OtherNamesHas(g, 1);
  }

  /** `most_recent_vals`: the `rolling_mean` and `rolling_std` of the last encoded row. */
  datatype Carry = Carry(rollingMean: Cell, rollingStd: Cell)

  /** The artifact bundle, in the source's order: `[ohe, features_to_drop, schema,
      most_recent_vals]`. */
  datatype Artifacts = Artifacts(encoder: Encoding.Encoder, featuresToDrop: seq<string>,
                                 schema: seq<string>, recent: Carry)

  /** The saved `features_to_drop` ends with `random_feature` and shares no label with the
      saved schema. */
  predicate Dropped(a: Artifacts)
  {
    |a.featuresToDrop| > 0 && a.featuresToDrop[|a.featuresToDrop| - 1] == Pruning.RandomFeature &&
    forall l :: l in a.schema ==> l !in a.featuresToDrop
  }

  /** `encode_categorical(df_transformed)`: an encoder fitted on the supervised frame and
      the frame it encodes. */
  function Encode(g: Frame): (r: Result<(Frame, Encoding.Encoder)>)
    requires WellFormed(g) && g.columns == SupervisedColumns
    ensures r.Ok? ==> WellFormed(r.value.0) && "value" in Names(r.value.0.columns)
    ensures r.Ok? ==> "random_feature" in Names(r.value.0.columns)
  {
    var fitted :- Encoding.EncodeCategorical(g, None, true);
    EncodedFrame(g, fitted.1);
    Ok(fitted)
  }

  /** `X`: the encoded frame without the target. */
  function Inputs(enc: Frame): (x: Frame)
    requires WellFormed(enc) && "value" in Names(enc.columns)
    ensures WellFormed(x) && Names(x.columns) == Without(Names(enc.columns), ["value"])
  {
    Drop(enc, ["value"]).value
  }

  /** The rest of `main` once the frame is encoded: the target split off, the last row's
      rolling statistics read (`iloc[-1]` fails on an empty frame), the rows split for
      cross-validation (which fails on fewer rows than folds), and the features ranked
      below the noise column pruned. */
  function Assemble(enc: Frame, ohe: Encoding.Encoder, importances: seq<real>): (r: Result<Artifacts>)
    requires WellFormed(enc) && "value" in Names(enc.columns)
  {
    if |enc.rows| == 0 then Err(IndexError)
    else
      var m := Lookup(enc, |enc.rows| - 1, "rolling_mean");
      var sd := Lookup(enc, |enc.rows| - 1, "rolling_std");
      if m.None? then Err(KeyError("rolling_mean"))
      else if sd.None? then Err(KeyError("rolling_std"))
      else if CrossValidation.TimeSeriesSplit(|enc.rows|, Splits).Err? then
        Err(CrossValidation.TimeSeriesSplit(|enc.rows|, Splits).error)
      else match Pruning.RemoveRedundantFeatures(Inputs(enc), importances)
        case Err(e) => Err(e)
        case Ok(pruned) => Ok(Artifacts(ohe, pruned.1, Names(pruned.0.columns), Carry(m.value, sd.value)))
  }

  /** The training flow from the filtered observations on, with the model's
      `feature_importances_` given as `importances`. */
  function Train(kept: seq<Obs>, std: seq<int> -> real, draw: Features.Draws, importances: seq<real>): (r: Result<Artifacts>)
    ensures r.Ok? ==> Dropped(r.value)
  {
    SupervisedLayout(kept, std, draw);
    var fitted :- Encode(Supervise(kept, std, draw).value);
    AssembleDropped(fitted.0, fitted.1, importances);
    Assemble(fitted.0, fitted.1, importances)
  }

  /** The artifact assembly of `main`, with the random draws as `draw` and the model's
      `feature_importances_` as `importances`. The split into `Splits` folds is modelled,
      since it fails on a short series; fitting and tuning the model only produce
      `importances` and the fold errors, so they are not part of it. */
  function TrainingRun(obs: seq<Obs>, std: seq<int> -> real, draw: Features.Draws, importances: seq<real>): (r: Result<Artifacts>)
    ensures r.Ok? ==> Dropped(r.value)
  {
    Train(Outliers.FilterByIqr(obs), std, draw, importances)
  }

  /** `rolling_mean` and `rolling_std` are columns the encoder keeps. */
  lemma RollingAreOther(g: Frame)
    requires g.columns == SupervisedColumns
    ensures "rolling_mean" in Encoding.OtherNames(g) && "rolling_std" in Encoding.OtherNames(g)
  {
    assert g.columns[9] == Column("rolling_mean", Numeric);
    assert g.columns[10] == Column("rolling_std", Numeric);
    Encoding.OtherNamesHas(g, 9);
    Encoding.OtherNamesHas(g, 10);
  }

  /** Row `k` of the supervised frame is row `k + 1` of its input for the rolling statistics. */
  lemma ShiftedStats(f: Frame, k: nat)
    requires WellFormed(f) && Supervised.TransformToSupervised(f).Ok?
    requires k < |Supervised.TransformToSupervised(f).value.rows|
    ensures k + 1 < |f.rows|
    ensures var g := Supervised.TransformToSupervised(f).value;
            Lookup(g, k, "rolling_mean") == Lookup(f, k + 1, "rolling_mean") &&
            Lookup(g, k, "rolling_std") == Lookup(f, k + 1, "rolling_std")
  {
    Supervised.ShiftedCell(f, k, "rolling_mean");
    Supervised.ShiftedCell(f, k, "rolling_std");
  }

  /** Row `k` of the supervised frame carries the rolling statistics of the `Window`
      observations ending one past it. */
  lemma SupervisedRolling(kept: seq<Obs>, std: seq<int> -> real, draw: Features.Draws, k: nat)
    requires Supervise(kept, std, draw).Ok? && k < |Supervise(kept, std, draw).value.rows|
    ensures k + 1 + Window <= |kept|
    ensures var g := Supervise(kept, std, draw).value;
            var w := Outliers.Values(kept)[k + 1 .. k + 1 + Window];
            Lookup(g, k, "rolling_mean") == Some(Num(Features.Mean(w))) &&
            Lookup(g, k, "rolling_std") == Some(Num(std(w)))
  {
    SupervisedToExtracted(kept, std, draw, k);
    Features.RollingWindow(kept, Window, std, k + 1);
  }

  /** Row `k` of the supervised frame has the rolling statistics of row `k + 1` of the
      extraction. */
  lemma SupervisedToExtracted(kept: seq<Obs>, std: seq<int> -> real, draw: Features.Draws, k: nat)
    requires Supervise(kept, std, draw).Ok? && k < |Supervise(kept, std, draw).value.rows|
    ensures var g := Supervise(kept, std, draw).value;
            var ext := Features.ExtractFeatures(kept, Window, Features.Training(std));
            k + 1 < |ext.rows| &&
            Lookup(g, k, "rolling_mean") == Lookup(ext, k + 1, "rolling_mean") &&
            Lookup(g, k, "rolling_std") == Lookup(ext, k + 1, "rolling_std")
  {
    ShiftedStats(Features.ExtractFeaturesWithNoise(kept, Window, Features.Training(std), draw), k);
  }

  /** The encoder keeps the rolling statistics of every row. */
  lemma KeepsRolling(g: Frame, e: Encoding.Encoder, enc: Frame, k: nat)
    requires WellFormed(g) && g.columns == SupervisedColumns
    requires Encoding.Apply(e, g) == Ok(enc) && WellFormed(enc) && k < |enc.rows|
    ensures k < |g.rows|
    ensures Lookup(enc, k, "rolling_mean") == Lookup(g, k, "rolling_mean")
    ensures Lookup(enc, k, "rolling_std") == Lookup(g, k, "rolling_std")
  {
    RollingAreOther(g);
    Encoding.ApplyKeepsLookup(e, g, k, "rolling_mean");
    Encoding.ApplyKeepsLookup(e, g, k, "rolling_std");
  }

  /** What a successful assembly carries over: the statistics of the last encoded row. */
  lemma AssembleRecent(enc: Frame, ohe: Encoding.Encoder, importances: seq<real>)
    requires WellFormed(enc) && "value" in Names(enc.columns)
    requires Assemble(enc, ohe, importances).Ok?
    ensures |enc.rows| > 0
    ensures var recent := Assemble(enc, ohe, importances).value.recent;
            Lookup(enc, |enc.rows| - 1, "rolling_mean") == Some(recent.rollingMean) &&
            Lookup(enc, |enc.rows| - 1, "rolling_std") == Some(recent.rollingStd)
  {
  }

  /** `enc` is what `ohe` makes of the supervised frame `g`. */
  predicate EncodedFrom(g: Frame, ohe: Encoding.Encoder, enc: Frame)
  {
    WellFormed(g) && g.columns == SupervisedColumns && ohe.Fitted? && Encoding.Apply(ohe, g) == Ok(enc) &&
    WellFormed(enc) && "value" in Names(enc.columns) && "random_feature" in Names(enc.columns)
  }

  /** A successful run is the assembly of the encoded supervised frame. */
  lemma TrainParts(kept: seq<Obs>, std: seq<int> -> real, draw: Features.Draws, importances: seq<real>)
    requires Train(kept, std, draw, importances).Ok?
    ensures Supervise(kept, std, draw).Ok?
    ensures var g := Supervise(kept, std, draw).value;
            WellFormed(g) && g.columns == SupervisedColumns && Encode(g).Ok? &&
            EncodedFrom(g, Encode(g).value.1, Encode(g).value.0) &&
            Train(kept, std, draw, importances) == Assemble(Encode(g).value.0, Encode(g).value.1, importances)
  {
    SupervisedLayout(kept, std, draw);
  }

  /** After a successful assembly, the carried statistics are those of the last row of the
      frame that was encoded. */
  lemma AssembledLast(g: Frame, ohe: Encoding.Encoder, enc: Frame, importances: seq<real>)
    requires EncodedFrom(g, ohe, enc) && Assemble(enc, ohe, importances).Ok?
    ensures |g.rows| > 0
    ensures var recent := Assemble(enc, ohe, importances).value.recent;
            Lookup(g, |g.rows| - 1, "rolling_mean") == Some(recent.rollingMean) &&
            Lookup(g, |g.rows| - 1, "rolling_std") == Some(recent.rollingStd)
  {
    AssembleRecent(enc, ohe, importances);
    EncodedRows(g, ohe, enc);
    var k := |enc.rows| - 1;
    var recent := Assemble(enc, ohe, importances).value.recent;
    KeepsRolling(g, ohe, enc, k);
    assert |g.rows| - 1 == k;
    assert Lookup(g, k, "rolling_mean") == Some(recent.rollingMean);
    assert Lookup(g, k, "rolling_std") == Some(recent.rollingStd);
  }

  lemma EncodedRows(g: Frame, ohe: Encoding.Encoder, enc: Frame)
    requires EncodedFrom(g, ohe, enc)
    ensures |enc.rows| == |g.rows|
  {
  }

  /** The carried statistics are those of the supervised frame's last row. */
  lemma TrainLast(kept: seq<Obs>, std: seq<int> -> real, draw: Features.Draws, importances: seq<real>)
    requires Train(kept, std, draw, importances).Ok?
    ensures Supervise(kept, std, draw).Ok? && |Supervise(kept, std, draw).value.rows| > 0
    ensures var g := Supervise(kept, std, draw).value;
            var recent := Train(kept, std, draw, importances).value.recent;
            Lookup(g, |g.rows| - 1, "rolling_mean") == Some(recent.rollingMean) &&
            Lookup(g, |g.rows| - 1, "rolling_std") == Some(recent.rollingStd)
  {
    TrainParts(kept, std, draw, importances);
    var g := Supervise(kept, std, draw).value;
    AssembledLast(g, Encode(g).value.1, Encode(g).value.0, importances);
  }

  /** `most_recent_vals` holds the rolling mean and deviation of the last `Window`
      observations. */
  lemma TrainRecent(kept: seq<Obs>, std: seq<int> -> real, draw: Features.Draws, importances: seq<real>)
    requires Train(kept, std, draw, importances).Ok?
    ensures |kept| > Window
    ensures var w := Outliers.Values(kept)[|kept| - Window .. |kept|];
            Train(kept, std, draw, importances).value.recent == Carry(Num(Features.Mean(w)), Num(std(w)))
  {
    TrainLast(kept, std, draw, importances);
    SupervisedLast(kept, std, draw);
  }

  /** The last supervised row carries the statistics of the last `Window` observations. */
  lemma SupervisedLast(kept: seq<Obs>, std: seq<int> -> real, draw: Features.Draws)
    requires Supervise(kept, std, draw).Ok? && |Supervise(kept, std, draw).value.rows| > 0
    ensures |kept| > Window
    ensures var g := Supervise(kept, std, draw).value;
            var w := Outliers.Values(kept)[|kept| - Window .. |kept|];
            Lookup(g, |g.rows| - 1, "rolling_mean") == Some(Num(Features.Mean(w))) &&
            Lookup(g, |g.rows| - 1, "rolling_std") == Some(Num(std(w)))
  {
    SupervisedCount(kept, std, draw);
    var g := Supervise(kept, std, draw).value;
    var k := |g.rows| - 1;
    SupervisedRolling(kept, std, draw, k);
    LastWindow(g, Outliers.Values(kept), std, k);
  }

  /** Row `k` carries window `k + 1 ..`: so the last row, of `n - Window`, carries the last
      window. */
  lemma LastWindow(g: Frame, values: seq<int>, std: seq<int> -> real, k: nat)
    requires |values| >= Window && |g.rows| == |values| - Window && k + 1 == |g.rows|
    requires Lookup(g, k, "rolling_mean") == Some(Num(Features.Mean(values[k + 1 .. k + 1 + Window])))
    requires Lookup(g, k, "rolling_std") == Some(Num(std(values[k + 1 .. k + 1 + Window])))
    ensures var w := values[|values| - Window .. |values|];
            Lookup(g, |g.rows| - 1, "rolling_mean") == Some(Num(Features.Mean(w))) &&
            Lookup(g, |g.rows| - 1, "rolling_std") == Some(Num(std(w)))
  {
    assert k + 1 + Window == |values|;
  }

  /** The supervised frame has one row per observation after the first `Window`. */
  lemma SupervisedCount(kept: seq<Obs>, std: seq<int> -> real, draw: Features.Draws)
    ensures Supervise(kept, std, draw).Ok?
    ensures |Supervise(kept, std, draw).value.rows| == if |kept| >= Window then |kept| - Window else 0
  {
    SupervisedLayout(kept, std, draw);
  }

  /** With no supervised rows the encoder cannot be fitted. */
  lemma EncodeEmpty(g: Frame)
    requires WellFormed(g) && g.columns == SupervisedColumns && |g.rows| == 0
    ensures Encode(g) == Err(NoSamples)
  {
    SupervisedCategoricals(g);
    assert |Encoding.CategoricalNames(g)| == |Encoding.Where(g.columns, true, 0)|;
  }

  /** With supervised rows, fitting and transforming succeed. */
  lemma EncodeSucceeds(g: Frame)
    requires WellFormed(g) && g.columns == SupervisedColumns && |g.rows| > 0
    ensures Encode(g).Ok? && EncodedFrom(g, Encode(g).value.1, Encode(g).value.0)
    ensures |Encode(g).value.0.rows| == |g.rows|
  {
  }

  /** With `Window` observations or fewer the supervised frame is empty and fitting the
      encoder fails. */
  lemma TrainRejectsShortSeries(kept: seq<Obs>, std: seq<int> -> real, draw: Features.Draws, importances: seq<real>)
    requires |kept| <= Window
    ensures Train(kept, std, draw, importances) == Err(NoSamples)
  {
    SupervisedLayout(kept, std, draw);
    EncodeEmpty(Supervise(kept, std, draw).value);
  }

  /** The model's inputs: the ten numeric features besides `value`, then one indicator per
      learned category. */
  lemma InputWidth(g: Frame, ohe: Encoding.Encoder, enc: Frame)
    requires EncodedFrom(g, ohe, enc)
    ensures |Inputs(enc).columns| == 10 + Encoding.Width(ohe.learned)
  {
    SupervisedCategoricals(g);
    assert |Encoding.CategoricalNames(g)| == |Encoding.Where(g.columns, true, 0)|;
    Encoding.WhereSplit(g.columns, 0);
    assert |Encoding.OtherNames(g)| == 11;
    assert |Names(enc.columns)| == 11 + Encoding.Width(ohe.learned);
    WithoutOne(Names(enc.columns), "value");
  }

  /** The noise column is one of the model's inputs. */
  lemma RandomIsInput(g: Frame, ohe: Encoding.Encoder, enc: Frame)
    requires EncodedFrom(g, ohe, enc)
    ensures Pruning.RandomFeature in Names(Inputs(enc).columns)
  {
  }

  lemma RandomIsOther(g: Frame)
    requires g.columns == SupervisedColumns
    ensures "random_feature" in Encoding.OtherNames(g)
  {
    assert g.columns[11] == Column("random_feature", Numeric);
    Encoding.OtherNamesHas(g, 11);
  }

  /** Once the last row has its statistics, only too few rows for the folds or a wrong
      number of importances can make the assembly fail. */
  lemma AssembleOutcome(g: Frame, ohe: Encoding.Encoder, enc: Frame, importances: seq<real>)
    requires Ready(g, ohe, enc)
    ensures Assemble(enc, ohe, importances).Ok? <==>
              |enc.rows| > Splits && |importances| == 10 + Encoding.Width(ohe.learned)
    ensures Assemble(enc, ohe, importances).Err? ==>
              Assemble(enc, ohe, importances).error == if |enc.rows| <= Splits then TooFewSamples else LengthMismatch
  {
    InputWidth(g, ohe, enc);
    RandomIsInput(g, ohe, enc);
    AssemblePrunes(enc, ohe, importances);
  }

  /** With rows and both statistics present, assembling fails on fewer rows than folds, and
      otherwise succeeds or fails exactly as the pruning of the inputs does. */
  lemma AssemblePrunes(enc: Frame, ohe: Encoding.Encoder, importances: seq<real>)
    requires WellFormed(enc) && "value" in Names(enc.columns) && |enc.rows| > 0
    requires Lookup(enc, |enc.rows| - 1, "rolling_mean").Some? && Lookup(enc, |enc.rows| - 1, "rolling_std").Some?
    ensures Assemble(enc, ohe, importances).Ok? <==>
              |enc.rows| > Splits && Pruning.RemoveRedundantFeatures(Inputs(enc), importances).Ok?
    ensures Assemble(enc, ohe, importances).Err? ==>
              Assemble(enc, ohe, importances).error ==
                if |enc.rows| <= Splits then TooFewSamples
                else Pruning.RemoveRedundantFeatures(Inputs(enc), importances).error
  {
  }

  /** `enc`, what `ohe` makes of `g`, has a last row with both rolling statistics. */
  predicate Ready(g: Frame, ohe: Encoding.Encoder, enc: Frame)
  {
    EncodedFrom(g, ohe, enc) && |enc.rows| > 0 &&
    Lookup(enc, |enc.rows| - 1, "rolling_mean").Some? && Lookup(enc, |enc.rows| - 1, "rolling_std").Some?
  }

  /** With more than `Window` observations, the supervised frame encodes into a frame whose
      last row has its rolling statistics. */
  lemma LongSeriesReady(kept: seq<Obs>, std: seq<int> -> real, draw: Features.Draws)
    requires |kept| > Window
    ensures Supervise(kept, std, draw).Ok?
    ensures var g := Supervise(kept, std, draw).value;
            WellFormed(g) && g.columns == SupervisedColumns && Encode(g).Ok? &&
            Ready(g, Encode(g).value.1, Encode(g).value.0)
  {
    SupervisedReady(kept, std, draw);
    EncodesReady(Supervise(kept, std, draw).value);
  }

  /** With more than `Window` observations the supervised frame has rows, and its last row
      has both rolling statistics. */
  lemma SupervisedReady(kept: seq<Obs>, std: seq<int> -> real, draw: Features.Draws)
    requires |kept| > Window
    ensures Supervise(kept, std, draw).Ok?
    ensures var g := Supervise(kept, std, draw).value;
            WellFormed(g) && g.columns == SupervisedColumns && |g.rows| > 0 &&
            Lookup(g, |g.rows| - 1, "rolling_mean").Some? && Lookup(g, |g.rows| - 1, "rolling_std").Some?
  {
    SupervisedLayout(kept, std, draw);
    SupervisedLast(kept, std, draw);
  }

  /** A supervised frame whose last row has its statistics encodes into a ready frame. */
  lemma EncodesReady(g: Frame)
    requires WellFormed(g) && g.columns == SupervisedColumns && |g.rows| > 0
    requires Lookup(g, |g.rows| - 1, "rolling_mean").Some? && Lookup(g, |g.rows| - 1, "rolling_std").Some?
    ensures Encode(g).Ok? && Ready(g, Encode(g).value.1, Encode(g).value.0)
  {
    EncodeSucceeds(g);
    EncodedStats(g, Encode(g).value.1, Encode(g).value.0);
  }

  /** With more than `Window` observations a run is the assembly of the supervised
      frame's encoding. */
  lemma TrainIsAssemble(kept: seq<Obs>, std: seq<int> -> real, draw: Features.Draws, importances: seq<real>)
    requires |kept| > Window
    ensures Supervise(kept, std, draw).Ok?
    ensures var g := Supervise(kept, std, draw).value;
            WellFormed(g) && g.columns == SupervisedColumns && Encode(g).Ok? &&
            Train(kept, std, draw, importances) == Assemble(Encode(g).value.0, Encode(g).value.1, importances)
  {
    SupervisedLayout(kept, std, draw);
    EncodeSucceeds(Supervise(kept, std, draw).value);
  }

  /** The encoding keeps the last row's rolling statistics present. */
  lemma EncodedStats(g: Frame, ohe: Encoding.Encoder, enc: Frame)
    requires EncodedFrom(g, ohe, enc) && |enc.rows| == |g.rows| > 0
    requires Lookup(g, |g.rows| - 1, "rolling_mean").Some? && Lookup(g, |g.rows| - 1, "rolling_std").Some?
    ensures Lookup(enc, |enc.rows| - 1, "rolling_mean").Some? && Lookup(enc, |enc.rows| - 1, "rolling_std").Some?
  {
    KeepsRolling(g, ohe, enc, |enc.rows| - 1);
  }

  /** A series with supervised rows trains exactly when those rows fill the folds (more
      than `Window + Splits` observations) and there is one importance per model input;
      otherwise the split reports too few samples, or the pruning the mismatch. */
  lemma TrainOutcome(kept: seq<Obs>, std: seq<int> -> real, draw: Features.Draws, importances: seq<real>)
    requires |kept| > Window
    ensures Supervise(kept, std, draw).Ok?
    ensures var g := Supervise(kept, std, draw).value;
            WellFormed(g) && g.columns == SupervisedColumns && Encode(g).Ok?
    ensures var ohe := Encode(Supervise(kept, std, draw).value).value.1;
            ohe.Fitted? &&
            (Train(kept, std, draw, importances).Ok? <==>
               |kept| > Window + Splits && |importances| == 10 + Encoding.Width(ohe.learned))
    ensures Train(kept, std, draw, importances).Err? ==>
              Train(kept, std, draw, importances).error ==
                if |kept| <= Window + Splits then TooFewSamples else LengthMismatch
  {
    LongSeriesReady(kept, std, draw);
    TrainIsAssemble(kept, std, draw, importances);
    SupervisedLayout(kept, std, draw);
    var g := Supervise(kept, std, draw).value;
    EncodedRows(g, Encode(g).value.1, Encode(g).value.0);
    AssembleOutcome(g, Encode(g).value.1, Encode(g).value.0, importances);
  }

  /** A successful assembly keeps the encoder it was given; `features_to_drop` lists the
      inputs ranked strictly below the noise column and ends with the noise column itself;
      the schema is the remaining inputs in their column order, without repeats, holding an
      input exactly when it is not the noise column and ranks at or above it. */
  /** A successful assembly had more rows than folds and saves a `features_to_drop` that ends
      with `random_feature` and is disjoint from the schema. */
  lemma AssembleDropped(enc: Frame, ohe: Encoding.Encoder, importances: seq<real>)
    requires WellFormed(enc) && "value" in Names(enc.columns)
    ensures Assemble(enc, ohe, importances).Ok? ==>
              |enc.rows| > Splits && Dropped(Assemble(enc, ohe, importances).value)
  {
    if Assemble(enc, ohe, importances).Ok? {
      assert CrossValidation.TimeSeriesSplit(|enc.rows|, Splits).Ok?;
      AssembledSchema(enc, ohe, importances);
    }
  }

  lemma AssembledSchema(enc: Frame, ohe: Encoding.Encoder, importances: seq<real>)
    requires WellFormed(enc) && "value" in Names(enc.columns)
    requires Assemble(enc, ohe, importances).Ok?
    ensures var a := Assemble(enc, ohe, importances).value;
            var names := Names(Inputs(enc).columns);
            a.encoder == ohe &&
            |importances| == |names| && Pruning.RandomFeature in names &&
            a.featuresToDrop == Pruning.ToDrop(names, importances) &&
            a.featuresToDrop[|a.featuresToDrop| - 1] == Pruning.RandomFeature &&
            a.schema == Without(names, a.featuresToDrop) &&
            Distinct(a.schema) && "value" !in a.schema && Pruning.RandomFeature !in a.schema &&
            forall i :: 0 <= i < |names| ==>
              (names[i] in a.schema <==>
                 names[i] != Pruning.RandomFeature && importances[i] >= Pruning.Threshold(names, importances))
  {
    AssemblePruned(enc, ohe, importances);
    var x := Inputs(enc);
    PrunedSchema(x, importances);
    var a := Assemble(enc, ohe, importances).value;
    var pruned := Pruning.RemoveRedundantFeatures(x, importances).value;
    assert a.featuresToDrop == pruned.1 && a.schema == Names(pruned.0.columns);
    assert "value" !in Names(x.columns);
  }

  /** A successful assembly records the outcome of pruning the inputs. */
  lemma AssemblePruned(enc: Frame, ohe: Encoding.Encoder, importances: seq<real>)
    requires WellFormed(enc) && "value" in Names(enc.columns)
    requires Assemble(enc, ohe, importances).Ok?
    ensures Pruning.RemoveRedundantFeatures(Inputs(enc), importances).Ok?
    ensures var a := Assemble(enc, ohe, importances).value;
            var pruned := Pruning.RemoveRedundantFeatures(Inputs(enc), importances).value;
            a.encoder == ohe && a.featuresToDrop == pruned.1 && a.schema == Names(pruned.0.columns)
  {
    assert |enc.rows| > 0;
    var m := Lookup(enc, |enc.rows| - 1, "rolling_mean");
    var sd := Lookup(enc, |enc.rows| - 1, "rolling_std");
    assert m.Some? && sd.Some?;
    assert CrossValidation.TimeSeriesSplit(|enc.rows|, Splits).Ok?;
    var r := Pruning.RemoveRedundantFeatures(Inputs(enc), importances);
    assert r.Ok?;
    assert Assemble(enc, ohe, importances) == Ok(Artifacts(ohe, r.value.1, Names(r.value.0.columns), Carry(m.value, sd.value)));
  }

  /** The labels left by pruning `x`: distinct, without the noise column, and exactly the
      inputs ranked at or above it. */
  lemma PrunedSchema(x: Frame, importances: seq<real>)
    requires WellFormed(x) && Pruning.RemoveRedundantFeatures(x, importances).Ok?
    ensures var names := Names(x.columns);
            var pruned := Pruning.RemoveRedundantFeatures(x, importances).value;
            var schema := Names(pruned.0.columns);
            |importances| == |names| && Pruning.RandomFeature in names &&
            pruned.1 == Pruning.ToDrop(names, importances) &&
            pruned.1[|pruned.1| - 1] == Pruning.RandomFeature &&
            schema == Without(names, pruned.1) &&
            Distinct(schema) && Pruning.RandomFeature !in schema &&
            forall i :: 0 <= i < |names| ==>
              (names[i] in schema <==>
                 names[i] != Pruning.RandomFeature && importances[i] >= Pruning.Threshold(names, importances))
  {
    Pruning.PrunedColumns(x, importances);
  }

  /** The encoder `Encode` returns is the one fitted on the supervised frame: it learned the
      `timezone` and `day_of_week` columns, in that order. */
  lemma EncodeFits(g: Frame)
    requires WellFormed(g) && g.columns == SupervisedColumns && Encode(g).Ok?
    ensures Encoding.Fit(g).Ok? && Encode(g).value.1 == Encoding.Fit(g).value
    ensures Encoding.Features(Encoding.Fit(g).value.learned) == ["timezone", "day_of_week"]
  {
    SupervisedCategoricals(g);
  }

  /** The encoder a run saves is the one fitted on its supervised frame. */
  lemma TrainEncoder(kept: seq<Obs>, std: seq<int> -> real, draw: Features.Draws, importances: seq<real>)
    requires Train(kept, std, draw, importances).Ok?
    ensures Supervise(kept, std, draw).Ok?
    ensures var g := Supervise(kept, std, draw).value;
            WellFormed(g) && Encoding.Fit(g).Ok? &&
            Train(kept, std, draw, importances).value.encoder == Encoding.Fit(g).value &&
            Encoding.Features(Encoding.Fit(g).value.learned) == ["timezone", "day_of_week"]
  {
    TrainParts(kept, std, draw, importances);
    var g := Supervise(kept, std, draw).value;
    AssemblePruned(Encode(g).value.0, Encode(g).value.1, importances);
    EncodeFits(g);
  }

  /** The schema a run saves names each kept input once, never the target nor the noise
      column, and the saved drop list ends with the noise column. */
  lemma TrainSchema(kept: seq<Obs>, std: seq<int> -> real, draw: Features.Draws, importances: seq<real>)
    requires Train(kept, std, draw, importances).Ok?
    ensures var a := Train(kept, std, draw, importances).value;
            Distinct(a.schema) && "value" !in a.schema && Pruning.RandomFeature !in a.schema &&
            |a.featuresToDrop| > 0 && a.featuresToDrop[|a.featuresToDrop| - 1] == Pruning.RandomFeature &&
            forall l :: l in a.schema ==> l !in a.featuresToDrop
  {
    TrainParts(kept, std, draw, importances);
    var g := Supervise(kept, std, draw).value;
    AssembledSchema(Encode(g).value.0, Encode(g).value.1, importances);
  }
}
