/** Calendar and rolling-window feature extraction (`extract_features`), in the training
    flavour that computes rolling statistics and the inference flavour that does not,
    plus the `random_feature` column the training flow appends as a pruning threshold. */
module Features {

  import opened Base
  import opened Frames
  import Calendar
  import Outliers

  /** Training computes rolling statistics; the sample standard deviation is a
      floating-point computation and is supplied by the caller. */
  datatype Mode = Training(std: seq<int> -> real) | Inference

  /** The columns every extracted frame starts with, in the order pandas creates them. */
  const DateColumns: seq<Column> := [
    Column("period", Timestamp), Column("timezone", Categorical), Column("value", Numeric),
    Column("year", Numeric), Column("month", Numeric), Column("day", Numeric),
    Column("day_of_week", Categorical), Column("quarter", Numeric),
    Column("week_of_year", Numeric), Column("is_weekend", Numeric)]

  const RollingColumns: seq<Column> := [Column("rolling_mean", Numeric), Column("rolling_std", Numeric)]

  /** The observation itself followed by the date parts of its period. */
  function DateCells(o: Obs): seq<Cell>
  {
    var d := o.period;
    [Stamp(d), Text(o.timezone), Num(o.value as real),
     Num(d.year as real), Num(d.month as real), Num(d.day as real),
     Text(Calendar.DayName(d)), Num(Calendar.Quarter(d) as real),
     Num(Calendar.IsoWeek(d) as real), Num(Calendar.IsWeekend(d) as real)]
  }

  function Sum(s: seq<int>): int
  {
    if |s| == 0 then 0 else Sum(s[..|s| - 1]) + s[|s| - 1]
  }

  function Mean(window: seq<int>): real
    requires |window| >= 1
  {
    Sum(window) as real / |window| as real
  }

  /** A row before `dropna`: its cells, and rolling statistics that may be NaN (`None`). */
  datatype Raw = Raw(cells: seq<Cell>, stats: seq<Option<real>>)

  predicate Complete(r: Raw)
  {
    forall k :: 0 <= k < |r.stats| ==> r.stats[k].Some?
  }

  function Finish(r: Raw): seq<Cell>
    requires Complete(r)
  {
    r.cells + seq(|r.stats|, k requires 0 <= k < |r.stats| => Num(r.stats[k].value))
  }

  /** `df.dropna()`: the rows without a NaN, in order. */
  function DropNa(raws: seq<Raw>): (r: seq<seq<Cell>>)
    ensures |r| <= |raws|
    ensures (forall j :: 0 <= j < |raws| ==> Complete(raws[j])) <==> |r| == |raws|
  {
    if |raws| == 0 then []
    else (if Complete(raws[0]) then [Finish(raws[0])] else []) + DropNa(raws[1..])
  }

  /** When exactly the rows before `lead` hold a NaN, `dropna` keeps the rest in order. */
  lemma {:induction false} DropNaSkipsLead(raws: seq<Raw>, lead: nat)
    requires lead <= |raws|
    requires forall j :: 0 <= j < lead ==> !Complete(raws[j])
    requires forall j :: lead <= j < |raws| ==> Complete(raws[j])
    ensures DropNa(raws) == seq(|raws| - lead, k requires 0 <= k < |raws| - lead => Finish(raws[k + lead]))
  {
    if |raws| == 0 {
    } else if lead == 0 {
      DropNaSkipsLead(raws[1..], 0);
      var rest := DropNa(raws[1..]);
      assert forall k :: 0 <= k < |rest| ==> rest[k] == Finish(raws[k + 1]);
      assert DropNa(raws) == [Finish(raws[0])] + rest;
    } else {
      DropNaSkipsLead(raws[1..], lead - 1);
      assert DropNa(raws) == DropNa(raws[1..]);
      var tail := raws[1..];
      assert forall k :: 0 <= k < |tail| ==> tail[k] == raws[k + 1];
    }
  }

  /** `value.rolling(window=w).mean()` at row `j`: NaN until the window is full. */
  function RollingMean(values: seq<int>, j: nat, w: nat): Option<real>
    requires j < |values|
  {
    if w >= 1 && j + 1 >= w then Some(Mean(values[j + 1 - w .. j + 1])) else None
  }

  /** `value.rolling(window=w).std()` at row `j`: NaN until the window is full, and always
      NaN for a window of one value (the sample deviation divides by w - 1). */
  function RollingStd(values: seq<int>, j: nat, w: nat, std: seq<int> -> real): Option<real>
    requires j < |values|
  {
    if w >= 2 && j + 1 >= w then Some(std(values[j + 1 - w .. j + 1])) else None
  }

  function RawRow(obs: seq<Obs>, j: nat, w: nat, mode: Mode): Raw
    requires j < |obs|
  {
    var values := Outliers.Values(obs);
    match mode
    case Inference => Raw(DateCells(obs[j]), [])
    case Training(std) => Raw(DateCells(obs[j]), [RollingMean(values, j, w), RollingStd(values, j, w, std)])
  }

  function Raws(obs: seq<Obs>, w: nat, mode: Mode): (r: seq<Raw>)
    ensures |r| == |obs|
  {
    seq(|obs|, j requires 0 <= j < |obs| => RawRow(obs, j, w, mode))
  }

  /** How many leading rows hold a NaN rolling statistic. */
  function Lead(n: nat, w: nat, mode: Mode): nat
  {
    if mode.Inference? then 0 else if w >= 2 && n >= w then w - 1 else n
  }

  lemma LeadRowsIncomplete(obs: seq<Obs>, w: nat, mode: Mode)
    ensures Lead(|obs|, w, mode) <= |obs|
    ensures forall j :: 0 <= j < Lead(|obs|, w, mode) ==> !Complete(Raws(obs, w, mode)[j])
    ensures forall j :: Lead(|obs|, w, mode) <= j < |obs| ==> Complete(Raws(obs, w, mode)[j])
  {
    var raws := Raws(obs, w, mode);
    var lead := Lead(|obs|, w, mode);
    forall j | 0 <= j < lead ensures !Complete(raws[j]) {
      assert raws[j].stats[1].None?;
    }
  }

  lemma DateCellsFit(o: Obs)
    ensures |DateCells(o)| == |DateColumns|
    ensures forall c :: 0 <= c < |DateColumns| ==> Fits(DateCells(o)[c], DateColumns[c].kind)
  {
  }

  lemma ColumnsDistinct()
    ensures Distinct(Names(DateColumns))
    ensures Distinct(Names(DateColumns + RollingColumns))
  {
    assert Names(DateColumns + RollingColumns) == ["period", "timezone", "value", "year", "month", "day",
      "day_of_week", "quarter", "week_of_year", "is_weekend", "rolling_mean", "rolling_std"];
  }

  /** The cells a kept row ends with: the rolling statistics of the window ending at it. */
  function StatCells(values: seq<int>, j: nat, w: nat, mode: Mode): seq<Cell>
    requires j < |values| && w >= 2 && j + 1 >= w
  {
    match mode
    case Inference => []
    case Training(std) => [Num(Mean(values[j + 1 - w .. j + 1])), Num(std(values[j + 1 - w .. j + 1]))]
  }

  lemma FinishRow(obs: seq<Obs>, w: nat, mode: Mode, j: nat)
    requires Lead(|obs|, w, mode) <= j < |obs|
    ensures Complete(Raws(obs, w, mode)[j])
    ensures mode.Inference? ==> Finish(Raws(obs, w, mode)[j]) == DateCells(obs[j])
    ensures mode.Training? ==> w >= 2 && j + 1 >= w
    ensures mode.Training? ==>
              Finish(Raws(obs, w, mode)[j]) == DateCells(obs[j]) + StatCells(Outliers.Values(obs), j, w, mode)
  {
    LeadRowsIncomplete(obs, w, mode);
  }

  function Columns(mode: Mode): seq<Column>
  {
    if mode.Inference? then DateColumns else DateColumns + RollingColumns
  }

  lemma RowShaped(obs: seq<Obs>, w: nat, mode: Mode, j: nat)
    requires Lead(|obs|, w, mode) <= j < |obs|
    ensures Complete(Raws(obs, w, mode)[j])
    ensures |Finish(Raws(obs, w, mode)[j])| == |Columns(mode)|
    ensures forall c :: 0 <= c < |Columns(mode)| ==> Fits(Finish(Raws(obs, w, mode)[j])[c], Columns(mode)[c].kind)
  {
    FinishRow(obs, w, mode, j);
    DateCellsFit(obs[j]);
  }

  /** Exactly the rows before `lead` hold a NaN. */
  predicate LeadSplit(raws: seq<Raw>, lead: nat)
  {
    lead <= |raws| &&
    (forall j :: 0 <= j < lead ==> !Complete(raws[j])) &&
    (forall j :: lead <= j < |raws| ==> Complete(raws[j]))
  }

  lemma RawsLeadSplit(obs: seq<Obs>, w: nat, mode: Mode)
    ensures LeadSplit(Raws(obs, w, mode), Lead(|obs|, w, mode))
  {
    LeadRowsIncomplete(obs, w, mode);
  }

  lemma KeptIndex(raws: seq<Raw>, lead: nat, k: nat)
    requires LeadSplit(raws, lead)
    ensures |DropNa(raws)| == |raws| - lead
    ensures k < |raws| - lead ==> Complete(raws[k + lead]) && DropNa(raws)[k] == Finish(raws[k + lead])
  {
    DropNaSkipsLead(raws, lead);
  }

  /** What row `k` of the frame holds: the date cells of its observation and, in training,
      the statistics of the window ending at that observation. */
  predicate RowFacts(obs: seq<Obs>, w: nat, mode: Mode, k: nat)
  {
    var rows := DropNa(Raws(obs, w, mode));
    k < |rows| && |rows[k]| == |Columns(mode)| && |rows[k]| >= 10 &&
    (mode.Inference? ==> k < |obs| && rows[k][..10] == DateCells(obs[k])) &&
    (mode.Training? ==>
      w >= 2 && k + w <= |obs| && rows[k][..10] == DateCells(obs[k + w - 1]) &&
      rows[k][10] == Num(Mean(Outliers.Values(obs)[k .. k + w])) &&
      rows[k][11] == Num(mode.std(Outliers.Values(obs)[k .. k + w]))) &&
    forall c :: 0 <= c < |Columns(mode)| ==> Fits(rows[k][c], Columns(mode)[c].kind)
  }

  lemma KeptRow(obs: seq<Obs>, w: nat, mode: Mode, k: nat)
    requires k < |DropNa(Raws(obs, w, mode))|
    ensures RowFacts(obs, w, mode, k)
  {
    var j := KeptSource(obs, w, mode, k);
    if mode.Training? {
      KeptTrainingRow(obs, w, mode, k, j);
    } else {
      KeptInferenceRow(obs, w, mode, k, j);
    }
  }

  lemma KeptTrainingRow(obs: seq<Obs>, w: nat, mode: Mode, k: nat, j: nat)
    requires mode.Training? && k < |DropNa(Raws(obs, w, mode))|
    requires j == k + Lead(|obs|, w, mode) && j < |obs|
    requires DropNa(Raws(obs, w, mode))[k] == Finish(Raws(obs, w, mode)[j])
    ensures RowFacts(obs, w, mode, k)
  {
    KeptShape(obs, w, mode, k, j);
    KeptStats(obs, w, mode, k, j);
  }

  lemma KeptInferenceRow(obs: seq<Obs>, w: nat, mode: Mode, k: nat, j: nat)
    requires mode.Inference? && k < |DropNa(Raws(obs, w, mode))|
    requires j == k + Lead(|obs|, w, mode) && j < |obs|
    requires DropNa(Raws(obs, w, mode))[k] == Finish(Raws(obs, w, mode)[j])
    ensures RowFacts(obs, w, mode, k)
  {
    KeptShape(obs, w, mode, k, j);
    DateCellsFit(obs[j]);
    FinishRow(obs, w, mode, j);
  }

  /** A kept row has a cell of the right kind under every column. */
  lemma KeptShape(obs: seq<Obs>, w: nat, mode: Mode, k: nat, j: nat)
    requires k < |DropNa(Raws(obs, w, mode))|
    requires j == k + Lead(|obs|, w, mode) && j < |obs|
    requires DropNa(Raws(obs, w, mode))[k] == Finish(Raws(obs, w, mode)[j])
    ensures var row := DropNa(Raws(obs, w, mode))[k];
            |row| == |Columns(mode)| && forall c :: 0 <= c < |Columns(mode)| ==> Fits(row[c], Columns(mode)[c].kind)
  {
    RowShaped(obs, w, mode, j);
  }

  /** In training, kept row `k` holds the date cells and window statistics of the window
      of `w` observations starting at `k`. */
  lemma KeptStats(obs: seq<Obs>, w: nat, mode: Mode, k: nat, j: nat)
    requires mode.Training? && k < |DropNa(Raws(obs, w, mode))|
    requires j == k + Lead(|obs|, w, mode) && j < |obs|
    requires DropNa(Raws(obs, w, mode))[k] == Finish(Raws(obs, w, mode)[j])
    ensures var row := DropNa(Raws(obs, w, mode))[k];
            w >= 2 && k + w <= |obs| && |row| >= 10 && row[..10] == DateCells(obs[k + w - 1]) &&
            row[10] == Num(Mean(Outliers.Values(obs)[k .. k + w])) &&
            row[11] == Num(mode.std(Outliers.Values(obs)[k .. k + w]))
  {
    RawsLeadSplit(obs, w, mode);
    TrainingRowCells(obs, w, mode, k, j, DropNa(Raws(obs, w, mode))[k]);
  }

  /** Row `k` of the frame is the finished raw row `j`, `k` places after the lead. */
  lemma KeptSource(obs: seq<Obs>, w: nat, mode: Mode, k: nat) returns (j: nat)
    requires k < |DropNa(Raws(obs, w, mode))|
    ensures j == k + Lead(|obs|, w, mode) && j < |obs|
    ensures DropNa(Raws(obs, w, mode))[k] == Finish(Raws(obs, w, mode)[j])
  {
    var raws, lead := Raws(obs, w, mode), Lead(|obs|, w, mode);
    RawsLeadSplit(obs, w, mode);
    KeptIndex(raws, lead, k);
    j := k + lead;
  }

  /** In training, raw row `j` holds the date cells of observation `j` and the statistics
      of the window of `w` ending there, which starts at `k`. */
  lemma TrainingRowCells(obs: seq<Obs>, w: nat, mode: Mode, k: nat, j: nat, row: seq<Cell>)
    requires mode.Training? && j == k + Lead(|obs|, w, mode) && j < |obs|
    requires Complete(Raws(obs, w, mode)[j]) && row == Finish(Raws(obs, w, mode)[j])
    ensures w >= 2 && k + w <= |obs| && j == k + w - 1
    ensures |row| >= 12 && row[..10] == DateCells(obs[k + w - 1])
    ensures row[10] == Num(Mean(Outliers.Values(obs)[k .. k + w]))
    ensures row[11] == Num(mode.std(Outliers.Values(obs)[k .. k + w]))
  {
    LeadRowsIncomplete(obs, w, mode);
    FinishRow(obs, w, mode, j);
    DateCellsFit(obs[j]);
    var stats := StatCells(Outliers.Values(obs), j, w, mode);
    assert j + 1 - w == k && k + w - 1 == j;
    assert row[..10] == DateCells(obs[j]);
    assert obs[k + w - 1] == obs[j];
    assert row[10] == stats[0] && row[11] == stats[1];
  }

  lemma KeptCount(obs: seq<Obs>, w: nat, mode: Mode)
    ensures |DropNa(Raws(obs, w, mode))| == |obs| - Lead(|obs|, w, mode)
  {
    RawsLeadSplit(obs, w, mode);
    KeptIndex(Raws(obs, w, mode), Lead(|obs|, w, mode), 0);
  }

  lemma KeptShaped(obs: seq<Obs>, w: nat, mode: Mode)
    ensures Shaped(Frame(Columns(mode), DropNa(Raws(obs, w, mode))))
  {
    var rows := DropNa(Raws(obs, w, mode));
    forall k | 0 <= k < |rows|
      ensures |rows[k]| == |Columns(mode)|
      ensures forall c :: 0 <= c < |Columns(mode)| ==> Fits(rows[k][c], Columns(mode)[c].kind)
    {
      KeptRow(obs, w, mode, k);
    }
  }

  /** `extract_features(df, window_size=w, inference=...)`: the date parts of every
      observation and, in training, the rolling statistics, minus the rows `dropna` removes. */
  function ExtractFeatures(obs: seq<Obs>, w: nat, mode: Mode): (f: Frame)
    ensures WellFormed(f)
    ensures f.columns == Columns(mode)
    ensures mode.Inference? ==> |f.rows| == |obs|
    ensures mode.Training? ==> |f.rows| == if w >= 2 && |obs| >= w then |obs| - w + 1 else 0
  {
    KeptCount(obs, w, mode);
    KeptShaped(obs, w, mode);
    ColumnsDistinct();
    Frame(Columns(mode), DropNa(Raws(obs, w, mode)))
  }

  /** Without rolling statistics, row `k` describes observation `k`: nothing is dropped
      and the order is kept. */
  lemma InferenceRowsAligned(obs: seq<Obs>, w: nat, k: nat)
    requires k < |obs|
    ensures ExtractFeatures(obs, w, Inference).rows[k] == DateCells(obs[k])
  {
    var rows := ExtractFeatures(obs, w, Inference).rows;
    assert rows == DropNa(Raws(obs, w, Inference));
    KeptRow(obs, w, Inference, k);
    assert |rows[k]| == 10;
    assert rows[k] == rows[k][..10];
  }

  /** In training, row `k` describes observation `k + w - 1`, the first `w - 1`
      observations having no full window. */
  lemma TrainingRowsAligned(obs: seq<Obs>, w: nat, std: seq<int> -> real, k: nat)
    requires k < |ExtractFeatures(obs, w, Training(std)).rows|
    ensures w >= 2 && k + w <= |obs|
    ensures ExtractFeatures(obs, w, Training(std)).rows[k][..10] == DateCells(obs[k + w - 1])
  {
    KeptRow(obs, w, Training(std), k);
  }

  /** Each row's `rolling_mean` is the mean of its own value and the `w - 1` values
      before it, and its `rolling_std` the deviation of the same window. */
  lemma RollingWindow(obs: seq<Obs>, w: nat, std: seq<int> -> real, k: nat)
    requires k < |ExtractFeatures(obs, w, Training(std)).rows|
    ensures k + w <= |obs|
    ensures Lookup(ExtractFeatures(obs, w, Training(std)), k, "rolling_mean") ==
              Some(Num(Mean(Outliers.Values(obs)[k .. k + w])))
    ensures Lookup(ExtractFeatures(obs, w, Training(std)), k, "rolling_std") ==
              Some(Num(std(Outliers.Values(obs)[k .. k + w])))
  {
    var f := ExtractFeatures(obs, w, Training(std));
    KeptRow(obs, w, Training(std), k);
    ColumnsDistinct();
    IndexOfDistinct(Names(f.columns), 10);
    IndexOfDistinct(Names(f.columns), 11);
  }

  /** A stream of `random.random()` results: each in [0, 1). */
  type Draws = d: nat -> real | forall i: nat :: 0.0 <= d(i) < 1.0 witness (i: nat) => 0.0

  /** `df['random_feature'] = [random.random() for _ in range(len(df))]`, with the draws
      supplied as a stream. */
  function WithRandomFeature(f: Frame, draw: Draws): (r: Frame)
    requires WellFormed(f) && "random_feature" !in Names(f.columns)
    ensures WellFormed(r) && |r.rows| == |f.rows|
    ensures Names(r.columns) == Names(f.columns) + ["random_feature"]
    ensures r.columns == f.columns + [Column("random_feature", Numeric)]
    ensures forall i :: 0 <= i < |r.rows| ==>
              Lookup(r, i, "random_feature").Some? &&
              Lookup(r, i, "random_feature").value.Num? &&
              0.0 <= Lookup(r, i, "random_feature").value.x < 1.0
    ensures forall i, n :: 0 <= i < |f.rows| && n != "random_feature" ==> Lookup(r, i, n) == Lookup(f, i, n)
  {
    SetColumn(f, Column("random_feature", Numeric), seq(|f.rows|, i requires 0 <= i < |f.rows| => Num(draw(i))))
  }

  /** The training flow's `extract_features`: the extraction followed by the random column. */
  function ExtractFeaturesWithNoise(obs: seq<Obs>, w: nat, mode: Mode, draw: Draws): (f: Frame)
    ensures WellFormed(f)
    ensures Names(f.columns) == Names(ExtractFeatures(obs, w, mode).columns) + ["random_feature"]
    ensures f.columns == Columns(mode) + [Column("random_feature", Numeric)]
    ensures |f.rows| == |ExtractFeatures(obs, w, mode).rows|
    ensures forall i, n :: 0 <= i < |f.rows| && n != "random_feature" ==>
              Lookup(f, i, n) == Lookup(ExtractFeatures(obs, w, mode), i, n)
  {
    var g := ExtractFeatures(obs, w, mode);
    assert "random_feature" !in Names(g.columns);
    WithRandomFeature(g, draw)
  }
}
