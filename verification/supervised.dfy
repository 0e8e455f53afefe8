/** `transform_to_supervised`: the previous row's `value` becomes the `lag` feature. */
module Supervised {

  import opened Base
  import opened Frames

  /** The frame without its first row. */
  function Tail(f: Frame): (r: Frame)
    requires WellFormed(f) && |f.rows| >= 1
    ensures WellFormed(r) && r.columns == f.columns && |r.rows| == |f.rows| - 1
    ensures forall j, n :: 0 <= j < |r.rows| ==> Lookup(r, j, n) == Lookup(f, j + 1, n)
  {
    Frame(f.columns, f.rows[1..])
  }

  /** The labels after `df['lag'] = ...`: unchanged if `lag` exists, else appended. */
  function WithLag(names: seq<string>): seq<string>
  {
    if "lag" in names then names else names + ["lag"]
  }

  /** The columns after `df['lag'] = ...` with a lag of dtype `kind`: a `lag` column is
      overwritten in place, otherwise one is appended. */
  function WithLagColumn(cols: seq<Column>, kind: Kind): seq<Column>
  {
    match IndexOf(Names(cols), "lag")
    case None => cols + [Column("lag", kind)]
    case Some(p) => cols[p := Column("lag", kind)]
  }

  /** The dtype of the `value` column. */
  function ValueKind(f: Frame): Kind
    requires "value" in Names(f.columns)
  {
    f.columns[IndexOf(Names(f.columns), "value").value].kind
  }

  /** The lag is positional: the row derived from input row `j + 1` carries the value of
      input row `j`, whatever their periods. The first row, whose shifted value is NaN, is
      dropped; then `period` is removed (KeyError when absent). */
  function TransformToSupervised(f: Frame): (r: Result<Frame>)
    requires WellFormed(f)
    ensures r.Err? <==> "value" !in Names(f.columns) || "period" !in Names(f.columns)
    ensures r.Err? ==> r.error == KeyError(if "value" !in Names(f.columns) then "value" else "period")
    ensures r.Ok? ==> WellFormed(r.value)
    ensures r.Ok? ==> |r.value.rows| == if |f.rows| == 0 then 0 else |f.rows| - 1
    ensures r.Ok? ==> Names(r.value.columns) == Without(WithLag(Names(f.columns)), ["period"])
    ensures r.Ok? ==> r.value.columns == Kept(WithLagColumn(f.columns, ValueKind(f)), ["period"])
    ensures r.Ok? ==> forall j :: 0 <= j < |r.value.rows| ==> Lookup(r.value, j, "lag") == Lookup(f, j, "value")
    ensures r.Ok? ==> forall j, n :: 0 <= j < |r.value.rows| && n != "lag" && n != "period" ==>
              Lookup(r.value, j, n) == Lookup(f, j + 1, n)
  {
    match IndexOf(Names(f.columns), "value")
    case None => Err(KeyError("value"))
    case Some(v) => Drop(Shift(f, v), ["period"])
  }

  /** Every cell but the lag comes from the next input row. */
  lemma ShiftedCell(f: Frame, j: nat, n: string)
    requires WellFormed(f) && TransformToSupervised(f).Ok? && j < |TransformToSupervised(f).value.rows|
    requires n != "lag" && n != "period"
    ensures j + 1 < |f.rows| && Lookup(TransformToSupervised(f).value, j, n) == Lookup(f, j + 1, n)
  {
  }

  /** `df['lag'] = df['value'].shift()` followed by dropping the first row. */
  function Shift(f: Frame, v: nat): (g: Frame)
    requires WellFormed(f) && v < |f.columns| && f.columns[v].name == "value"
    ensures WellFormed(g) && Names(g.columns) == WithLag(Names(f.columns))
    ensures g.columns == WithLagColumn(f.columns, f.columns[v].kind)
    ensures |g.rows| == if |f.rows| == 0 then 0 else |f.rows| - 1
    ensures forall j :: 0 <= j < |g.rows| ==> Lookup(g, j, "lag") == Lookup(f, j, "value")
    ensures forall j, n :: 0 <= j < |g.rows| && n != "lag" ==> Lookup(g, j, n) == Lookup(f, j + 1, n)
  {
    IndexOfDistinct(Names(f.columns), v);
    var body := if |f.rows| == 0 then f else Tail(f);
    var lagCells := seq(|body.rows|, j requires 0 <= j < |body.rows| => f.rows[j][v]);
    assert forall j :: 0 <= j < |body.rows| ==> Lookup(f, j, "value") == Some(lagCells[j]);
    assert Names(body.columns) == Names(f.columns);
    SetColumn(body, Column("lag", f.columns[v].kind), lagCells)
  }
}
