/** `prepare_for_inference`: the date features of the recent observations, the observed
    value as the lag, the saved encoder applied, the carried rolling statistics on every
    row, and the result projected onto the saved schema. */
module Inference {

  import opened Base
  import opened Frames
  import Features
  import Encoding
  import Training

  /** The columns after `extract_features(df, inference=True)` and the renaming of `value`
      to `lag`. */
  const LaggedColumns: seq<Column> := [
    Column("period", Timestamp), Column("timezone", Categorical), Column("lag", Numeric),
    Column("year", Numeric), Column("month", Numeric), Column("day", Numeric),
    Column("day_of_week", Categorical), Column("quarter", Numeric),
    Column("week_of_year", Numeric), Column("is_weekend", Numeric)]

  /** The labels of `LaggedColumns` that are not categorical, in order. */
  const LaggedOthers: seq<string> :=
    ["period", "lag", "year", "month", "day", "quarter", "week_of_year", "is_weekend"]

  /** The rolling statistics `prepare_for_inference` writes. */
  const CarriedNames: seq<string> := ["rolling_mean", "rolling_std"]

  /** `extract_features(df, inference=True)` with its default window, then
      `rename(columns={'value': 'lag'})`: one row per observation, in order. */
  function Lagged(obs: seq<Obs>): (f: Frame)
    ensures WellFormed(f) && f.columns == LaggedColumns && |f.rows| == |obs|
  {
    var ext := Features.ExtractFeatures(obs, Training.Window, Features.Inference);
    RenamedColumns(ext);
    Rename(ext, "value", "lag")
  }

  /** Renaming `value` to `lag` in the extraction's columns gives `LaggedColumns`. */
  lemma RenamedColumns(ext: Frame)
    requires WellFormed(ext) && ext.columns == Features.DateColumns
    ensures WellFormed(Rename(ext, "value", "lag")) && Rename(ext, "value", "lag").columns == LaggedColumns
  {
    assert Names(ext.columns) == ["period", "timezone", "value", "year", "month", "day",
      "day_of_week", "quarter", "week_of_year", "is_weekend"];
  }

  /** Each observation's own value is its row's `lag`. */
  lemma LaggedValue(obs: seq<Obs>, i: nat)
    requires i < |obs|
    ensures Lookup(Lagged(obs), i, "lag") == Some(Num(obs[i].value as real))
  {
    var ext := Features.ExtractFeatures(obs, Training.Window, Features.Inference);
    ExtractedValue(obs, i);
    RenamedColumns(ext);
    assert "lag" !in Names(ext.columns);
    assert Lagged(obs) == Rename(ext, "value", "lag");
  }

  lemma ExtractedValue(obs: seq<Obs>, i: nat)
    requires i < |obs|
    ensures Lookup(Features.ExtractFeatures(obs, Training.Window, Features.Inference), i, "value") ==
              Some(Num(obs[i].value as real))
  {
    Features.InferenceRowsAligned(obs, Training.Window, i);
    LookupAt(Features.ExtractFeatures(obs, Training.Window, Features.Inference), i, 2);
  }

  /** The dtype pandas gives a column filled with `c`. */
  function KindOf(c: Cell): (k: Kind)
    ensures Fits(c, k)
  {
    match c
    case Num(_) => Numeric
    case Text(_) => Categorical
    case Stamp(_) => Timestamp
  }

  /** `df[name] = c`: the column `name` holds `c` on every row. */
  function Fill(f: Frame, name: string, c: Cell): (r: Frame)
    requires WellFormed(f)
    ensures WellFormed(r) && |r.rows| == |f.rows|
    ensures Names(r.columns) == if name in Names(f.columns) then Names(f.columns) else Names(f.columns) + [name]
    ensures forall i :: 0 <= i < |f.rows| ==> Lookup(r, i, name) == Some(c)
    ensures forall i, n :: 0 <= i < |f.rows| && n != name ==> Lookup(r, i, n) == Lookup(f, i, n)
  {
    SetColumn(f, Column(name, KindOf(c)), seq(|f.rows|, i => c))
  }

  /** `df[['rolling_mean', 'rolling_std']] = last_day_rolling_vals`: the two carried
      statistics on every row. */
  function WithCarry(f: Frame, carry: Training.Carry): (r: Frame)
    requires WellFormed(f)
    ensures WellFormed(r) && |r.rows| == |f.rows|
    ensures CarriedNames[0] !in Names(f.columns) && CarriedNames[1] !in Names(f.columns) ==>
              Names(r.columns) == Names(f.columns) + CarriedNames
    ensures forall i :: 0 <= i < |f.rows| ==>
              Lookup(r, i, "rolling_mean") == Some(carry.rollingMean) &&
              Lookup(r, i, "rolling_std") == Some(carry.rollingStd)
    ensures forall i, n :: 0 <= i < |f.rows| && n !in CarriedNames ==> Lookup(r, i, n) == Lookup(f, i, n)
  {
    Fill(Fill(f, "rolling_mean", carry.rollingMean), "rolling_std", carry.rollingStd)
  }

  lemma LaggedCategoricalKinds()
    ensures Training.KindNames(LaggedColumns, true, 0) == ["timezone", "day_of_week"]
  {
    var c := LaggedColumns;
    assert Training.KindNames(c, true, 7) == [];
    assert Training.KindNames(c, true, 6) == ["day_of_week"];
    assert Training.KindNames(c, true, 2) == ["day_of_week"];
    assert Training.KindNames(c, true, 1) == ["timezone", "day_of_week"];
  }

  lemma LaggedOtherKinds()
    ensures Training.KindNames(LaggedColumns, false, 0) == LaggedOthers
  {
    var c := LaggedColumns;
    assert Training.KindNames(c, false, 6) == ["quarter", "week_of_year", "is_weekend"];
    assert Training.KindNames(c, false, 2) == ["lag", "year", "month", "day", "quarter", "week_of_year", "is_weekend"];
  }

  /** The categorical columns of the lagged frame are `timezone` and `day_of_week`; the
      others keep their order. */
  lemma LaggedCategoricals(f: Frame)
    requires f.columns == LaggedColumns
    ensures Encoding.CategoricalNames(f) == ["timezone", "day_of_week"]
    ensures Encoding.OtherNames(f) == LaggedOthers
  {
    Training.WhereNames(LaggedColumns, true, 0);
    Training.WhereNames(LaggedColumns, false, 0);
    LaggedCategoricalKinds();
    LaggedOtherKinds();
  }

  /** A valid encoder that transforms the lagged frame yields a well-formed frame: the
      eight other columns, then the indicator columns. */
  lemma LaggedEncoded(f: Frame, e: Encoding.Encoder)
    requires WellFormed(f) && f.columns == LaggedColumns
    requires Encoding.Valid(e) && Encoding.Apply(e, f).Ok?
    ensures e.Fitted? && Encoding.Features(e.learned) == ["timezone", "day_of_week"]
    ensures WellFormed(Encoding.Apply(e, f).value)
    ensures Names(Encoding.Apply(e, f).value.columns) == LaggedOthers + Names(Encoding.IndicatorColumns(e.learned))
  {
    LaggedCategoricals(f);
    var learned := e.learned;
    assert |learned| == 2 by {
      assert |Encoding.Features(learned)| == |learned|;
    }
    assert learned[0].feature == Encoding.Features(learned)[0];
    assert learned[1].feature == Encoding.Features(learned)[1];
    Encoding.AscendingDistinct(learned[0].categories);
    Encoding.AscendingDistinct(learned[1].categories);
    LaggedPlain();
    Training.EncodedLabelsDistinct(f, learned);
  }

  lemma LaggedPlain()
    ensures Training.PlainOthers(LaggedColumns)
  {
  }

  /** The labels a prepared frame can offer: the lagged frame's other columns, the encoder's
      indicator columns and the carried statistics. */
  function Offered(e: Encoding.Encoder): seq<string>
    requires e.Fitted?
  {
    LaggedOthers + Names(Encoding.IndicatorColumns(e.learned)) + CarriedNames
  }

  /** The carried statistics are not among the encoded labels. */
  lemma CarriedAbsent(e: Encoding.Encoder)
    requires e.Fitted? && Encoding.Features(e.learned) == ["timezone", "day_of_week"]
    ensures CarriedNames[0] !in LaggedOthers + Names(Encoding.IndicatorColumns(e.learned))
    ensures CarriedNames[1] !in LaggedOthers + Names(Encoding.IndicatorColumns(e.learned))
  {
    assert |e.learned| == 2 by {
      assert |Encoding.Features(e.learned)| == |e.learned|;
    }
    assert e.learned[0].feature == Encoding.Features(e.learned)[0];
    assert e.learned[1].feature == Encoding.Features(e.learned)[1];
    Training.PlainNotIndicator(e.learned, CarriedNames[0]);
    Training.PlainNotIndicator(e.learned, CarriedNames[1]);
  }

  /** `prepare_for_inference(df, last_day_rolling_vals, ohe, schema)` with the recent
      observations as `obs`, the saved `most_recent_vals` as `carry` and the saved encoder
      and schema. */
  function PrepareForInference(obs: seq<Obs>, carry: Training.Carry, ohe: Encoding.Encoder, schema: seq<string>): (r: Result<Frame>)
    requires Encoding.Valid(ohe)
    ensures Encoding.Apply(ohe, Lagged(obs)).Err? ==> r == Err(Encoding.Apply(ohe, Lagged(obs)).error)
    ensures r.Ok? ==> Names(r.value.columns) == schema && |r.value.rows| == |obs|
  {
    var f := Lagged(obs);
    var encoded :- Encoding.EncodeCategorical(f, Some(ohe), false);
    LaggedEncoded(f, ohe);
    Project(WithCarry(encoded.0, carry), schema)
  }

  /** Once the encoder accepts the observations, the projection fails exactly when the
      schema names a label the prepared frame does not offer, and then with a KeyError
      for such a label: a missing column is never filled in. */
  lemma PreparedOutcome(obs: seq<Obs>, carry: Training.Carry, ohe: Encoding.Encoder, schema: seq<string>)
    requires Encoding.Valid(ohe) && Encoding.Apply(ohe, Lagged(obs)).Ok?
    ensures ohe.Fitted?
    ensures PrepareForInference(obs, carry, ohe, schema).Ok? <==> forall l :: l in schema ==> l in Offered(ohe)
    ensures var r := PrepareForInference(obs, carry, ohe, schema);
            r.Err? ==> r.error.KeyError? && r.error.key in schema && r.error.key !in Offered(ohe)
  {
    PreparedIsProjection(obs, carry, ohe, schema);
    OfferedNames(Lagged(obs), ohe, carry);
  }

  /** Once the encoder accepts the observations, preparing is projecting the encoded frame
      with the carried statistics. */
  lemma PreparedIsProjection(obs: seq<Obs>, carry: Training.Carry, ohe: Encoding.Encoder, schema: seq<string>)
    requires Encoding.Valid(ohe) && Encoding.Apply(ohe, Lagged(obs)).Ok?
    ensures WellFormed(Encoding.Apply(ohe, Lagged(obs)).value)
    ensures PrepareForInference(obs, carry, ohe, schema) ==
              Project(WithCarry(Encoding.Apply(ohe, Lagged(obs)).value, carry), schema)
  {
    LaggedEncoded(Lagged(obs), ohe);
  }

  /** The encoded lagged frame with the carried statistics offers exactly `Offered`. */
  lemma OfferedNames(f: Frame, ohe: Encoding.Encoder, carry: Training.Carry)
    requires WellFormed(f) && f.columns == LaggedColumns
    requires Encoding.Valid(ohe) && Encoding.Apply(ohe, f).Ok?
    ensures WellFormed(Encoding.Apply(ohe, f).value) && ohe.Fitted?
    ensures Names(WithCarry(Encoding.Apply(ohe, f).value, carry).columns) == Offered(ohe)
  {
    LaggedEncoded(f, ohe);
    CarriedAbsent(ohe);
  }

  /** The encoder keeps each row's `lag`. */
  lemma EncodedLag(obs: seq<Obs>, ohe: Encoding.Encoder, i: nat)
    requires Encoding.Valid(ohe) && Encoding.Apply(ohe, Lagged(obs)).Ok? && i < |obs|
    ensures Lookup(Encoding.Apply(ohe, Lagged(obs)).value, i, "lag") == Some(Num(obs[i].value as real))
  {
    var f := Lagged(obs);
    LaggedEncoded(f, ohe);
    LaggedCategoricals(f);
    Encoding.ApplyKeepsLookup(ohe, f, i, "lag");
    LaggedValue(obs, i);
  }

  /** On every prepared row, `lag` is the observation's value and the rolling statistics
      are the carried ones, whenever the schema asks for them. */
  lemma PreparedCells(obs: seq<Obs>, carry: Training.Carry, ohe: Encoding.Encoder, schema: seq<string>, i: nat)
    requires Encoding.Valid(ohe) && PrepareForInference(obs, carry, ohe, schema).Ok?
    requires Distinct(schema) && i < |obs|
    ensures var r := PrepareForInference(obs, carry, ohe, schema).value;
            ("lag" in schema ==> Lookup(r, i, "lag") == Some(Num(obs[i].value as real))) &&
            ("rolling_mean" in schema ==> Lookup(r, i, "rolling_mean") == Some(carry.rollingMean)) &&
            ("rolling_std" in schema ==> Lookup(r, i, "rolling_std") == Some(carry.rollingStd))
  {
    PreparedIsProjection(obs, carry, ohe, schema);
    EncodedLag(obs, ohe, i);
  }

  /** The other labels of the supervised frame. */
  lemma SupervisedOthers(g: Frame)
    requires g.columns == Training.SupervisedColumns
    ensures Encoding.OtherNames(g) ==
              ["value", "year", "month", "day", "quarter", "week_of_year", "is_weekend",
               "rolling_mean", "rolling_std", "random_feature", "lag"]
  {
    Training.WhereNames(Training.SupervisedColumns, false, 0);
    Training.SupervisedOtherKinds();
  }

  /** Every label of the encoded training frame other than the target and the noise column
      is offered at inference time by the same encoder. */
  lemma TrainingLabelsOffered(g: Frame, ohe: Encoding.Encoder, enc: Frame)
    requires Training.EncodedFrom(g, ohe, enc)
    ensures forall l :: l in Names(enc.columns) && l != "value" && l != "random_feature" ==> l in Offered(ohe)
  {
    SupervisedOthers(g);
  }

  /** A schema saved by a successful assembly only names labels the inference frame
      offers. */
  lemma SchemaOffered(g: Frame, ohe: Encoding.Encoder, enc: Frame, importances: seq<real>)
    requires Training.EncodedFrom(g, ohe, enc) && Training.Assemble(enc, ohe, importances).Ok?
    ensures forall l :: l in Training.Assemble(enc, ohe, importances).value.schema ==> l in Offered(ohe)
  {
    Training.AssembledSchema(enc, ohe, importances);
    TrainingLabelsOffered(g, ohe, enc);
  }

  /** A successful run saves a valid encoder and a schema whose every label it offers. */
  lemma TrainedSchemaOffered(kept: seq<Obs>, std: seq<int> -> real, draw: Features.Draws, importances: seq<real>)
    requires Training.Train(kept, std, draw, importances).Ok?
    ensures var a := Training.Train(kept, std, draw, importances).value;
            Encoding.Valid(a.encoder) && a.encoder.Fitted? &&
            forall l :: l in a.schema ==> l in Offered(a.encoder)
  {
    Training.TrainEncoder(kept, std, draw, importances);
    Training.TrainParts(kept, std, draw, importances);
    var g := Training.Supervise(kept, std, draw).value;
    var (enc, ohe) := Training.Encode(g).value;
    Training.AssemblePruned(enc, ohe, importances);
    SchemaOffered(g, ohe, enc, importances);
  }

  /** What training saves is what inference needs: whenever the saved encoder accepts the
      recent observations, preparing them with the saved carry and schema succeeds, yields
      the schema's columns, one row per observation, and the rolling statistics of the last
      `Window` training observations on every row. */
  lemma TrainThenPrepare(kept: seq<Obs>, std: seq<int> -> real, draw: Features.Draws, importances: seq<real>, obs: seq<Obs>)
    requires Training.Train(kept, std, draw, importances).Ok?
    requires Encoding.Apply(Training.Train(kept, std, draw, importances).value.encoder, Lagged(obs)).Ok?
    ensures var a := Training.Train(kept, std, draw, importances).value;
            Encoding.Valid(a.encoder) &&
            PrepareForInference(obs, a.recent, a.encoder, a.schema).Ok? &&
            Names(PrepareForInference(obs, a.recent, a.encoder, a.schema).value.columns) == a.schema &&
            |PrepareForInference(obs, a.recent, a.encoder, a.schema).value.rows| == |obs|
  {
    TrainedSchemaOffered(kept, std, draw, importances);
    var a := Training.Train(kept, std, draw, importances).value;
    PreparedOutcome(obs, a.recent, a.encoder, a.schema);
  }

  /** The prepared rows carry the statistics training saved (by `TrainRecent`, those of
      the last `Window` observations it saw), when the schema kept them, and each
      observation's value as its `lag`. */
  lemma TrainThenPrepareCells(kept: seq<Obs>, std: seq<int> -> real, draw: Features.Draws, importances: seq<real>,
                              obs: seq<Obs>, i: nat)
    requires Training.Train(kept, std, draw, importances).Ok?
    requires Encoding.Apply(Training.Train(kept, std, draw, importances).value.encoder, Lagged(obs)).Ok?
    requires i < |obs|
    ensures var a := Training.Train(kept, std, draw, importances).value;
            Encoding.Valid(a.encoder) && PrepareForInference(obs, a.recent, a.encoder, a.schema).Ok?
    ensures var a := Training.Train(kept, std, draw, importances).value;
            var r := PrepareForInference(obs, a.recent, a.encoder, a.schema).value;
            ("lag" in a.schema ==> Lookup(r, i, "lag") == Some(Num(obs[i].value as real))) &&
            ("rolling_mean" in a.schema ==> Lookup(r, i, "rolling_mean") == Some(a.recent.rollingMean)) &&
            ("rolling_std" in a.schema ==> Lookup(r, i, "rolling_std") == Some(a.recent.rollingStd))
  {
    TrainThenPrepare(kept, std, draw, importances, obs);
    Training.TrainSchema(kept, std, draw, importances);
    var a := Training.Train(kept, std, draw, importances).value;
    PreparedCells(obs, a.recent, a.encoder, a.schema, i);
  }
}
