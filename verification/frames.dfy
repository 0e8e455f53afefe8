/** The data model shared by the feature pipeline: raw observations as read from the
    `demand` table, and pandas-style frames (an ordered column list with a dtype per
    column, and rows of cells) with the column operations the pipeline performs. */
module Frames {

  import opened Base
  import Calendar

  /** One row of `SELECT period, timezone, value FROM demand`. */
  datatype Obs = Obs(period: Calendar.Day, timezone: string, value: int)

  /** The pandas dtype of a column, as far as the pipeline distinguishes them. */
  datatype Kind = Numeric | Categorical | Timestamp

  datatype Column = Column(name: string, kind: Kind)

  datatype Cell = Num(x: real) | Text(s: string) | Stamp(date: Calendar.Day)

  datatype Frame = Frame(columns: seq<Column>, rows: seq<seq<Cell>>)

  function Names(cols: seq<Column>): (r: seq<string>)
    ensures |r| == |cols|
    ensures forall i :: 0 <= i < |cols| ==> r[i] == cols[i].name
  {
    seq(|cols|, i requires 0 <= i < |cols| => cols[i].name)
  }

  predicate Distinct<T(==)>(s: seq<T>)
  {
    forall i, j :: 0 <= i < j < |s| ==> s[i] != s[j]
  }

  /** Two sequences of distinct elements that share none stay distinct when joined. */
  lemma DistinctConcat<T>(a: seq<T>, b: seq<T>)
    requires Distinct(a) && Distinct(b)
    requires forall i, j :: 0 <= i < |a| && 0 <= j < |b| ==> a[i] != b[j]
    ensures Distinct(a + b)
  {
    var ab := a + b;
    forall i, j | 0 <= i < j < |ab| ensures ab[i] != ab[j] {
      if j < |a| {
        assert ab[i] == a[i] && ab[j] == a[j];
      } else if i >= |a| {
        assert ab[i] == b[i - |a|] && ab[j] == b[j - |a|];
      } else {
        assert ab[i] == a[i] && ab[j] == b[j - |a|];
      }
    }
  }

  predicate Fits(c: Cell, k: Kind)
  {
    match k
    case Numeric => c.Num?
    case Categorical => c.Text?
    case Timestamp => c.Stamp?
  }

  /** Every row has one cell per column, of the column's dtype. */
  predicate Shaped(f: Frame)
  {
    forall r :: 0 <= r < |f.rows| ==>
      |f.rows[r]| == |f.columns| &&
      forall c :: 0 <= c < |f.columns| ==> Fits(f.rows[r][c], f.columns[c].kind)
  }

  /** A frame as the pipeline builds them: shaped, with distinct column labels. */
  predicate WellFormed(f: Frame)
  {
    Shaped(f) && Distinct(Names(f.columns))
  }

  /** Position of the first column labelled `name`. */
  function IndexOf(names: seq<string>, name: string): (r: Option<nat>)
    ensures r.None? <==> name !in names
    ensures r.Some? ==> r.value < |names| && names[r.value] == name
    ensures r.Some? ==> forall k :: 0 <= k < r.value ==> names[k] != name
  {
    if |names| == 0 then None
    else if names[0] == name then Some(0)
    else match IndexOf(names[1..], name)
      case None => None
      case Some(k) => Some(k + 1)
  }

  lemma IndexOfDistinct(names: seq<string>, k: nat)
    requires Distinct(names) && k < |names|
    ensures IndexOf(names, names[k]) == Some(k)
  {
  }

  /** `df.loc[i, name]`: the cell of row `i` in the column labelled `name`. */
  function Lookup(f: Frame, i: nat, name: string): Option<Cell>
  {
    match IndexOf(Names(f.columns), name)
    case None => None
    case Some(c) => if i < |f.rows| && c < |f.rows[i]| then Some(f.rows[i][c]) else None
  }

  /** With distinct labels, a column's label finds its own cell. */
  lemma LookupAt(f: Frame, i: nat, c: nat)
    requires Distinct(Names(f.columns)) && c < |f.columns| && i < |f.rows| && c < |f.rows[i]|
    ensures Lookup(f, i, f.columns[c].name) == Some(f.rows[i][c])
  {
    IndexOfDistinct(Names(f.columns), c);
  }

  /** The columns at positions `idx`, in that order, with their cells. */
  function Select(f: Frame, idx: seq<nat>): (r: Frame)
    requires Shaped(f)
    requires forall k :: 0 <= k < |idx| ==> idx[k] < |f.columns|
    ensures |r.columns| == |idx| && |r.rows| == |f.rows|
    ensures forall k :: 0 <= k < |idx| ==> r.columns[k] == f.columns[idx[k]]
    ensures forall i, k :: 0 <= i < |f.rows| && 0 <= k < |idx| ==>
              |r.rows[i]| == |idx| && r.rows[i][k] == f.rows[i][idx[k]]
    ensures Shaped(r)
  {
    Frame(seq(|idx|, k requires 0 <= k < |idx| => f.columns[idx[k]]),
          seq(|f.rows|, i requires 0 <= i < |f.rows| =>
            seq(|idx|, k requires 0 <= k < |idx| => f.rows[i][idx[k]])))
  }

  /** Selecting the columns of distinct labels by position keeps each label's cells. */
  lemma SelectLookup(f: Frame, idx: seq<nat>, k: nat, i: nat)
    requires WellFormed(f)
    requires forall m :: 0 <= m < |idx| ==> idx[m] < |f.columns|
    requires Distinct(Names(Select(f, idx).columns))
    requires k < |idx| && i < |f.rows|
    ensures Lookup(Select(f, idx), i, f.columns[idx[k]].name) == Lookup(f, i, f.columns[idx[k]].name)
  {
    var r := Select(f, idx);
    IndexOfDistinct(Names(r.columns), k);
    IndexOfDistinct(Names(f.columns), idx[k]);
  }

  /** Ascending positions, from `from` on, of the labels not listed in `drop`. */
  function Survivors(names: seq<string>, drop: seq<string>, from: nat): (r: seq<nat>)
    requires from <= |names|
    ensures forall k :: 0 <= k < |r| ==> from <= r[k] < |names| && names[r[k]] !in drop
    ensures forall k, l :: 0 <= k < l < |r| ==> r[k] < r[l]
    ensures forall i :: from <= i < |names| && names[i] !in drop ==> i in r
    decreases |names| - from
  {
    if from == |names| then []
    else if names[from] in drop then Survivors(names, drop, from + 1)
    else [from] + Survivors(names, drop, from + 1)
  }

  /** The labels of `names` not listed in `labels`, in order. */
  function Without(names: seq<string>, labels: seq<string>): (r: seq<string>)
    ensures forall n :: n in r <==> n in names && n !in labels
  {
    if |names| == 0 then []
    else (if names[0] in labels then [] else [names[0]]) + Without(names[1..], labels)
  }

  /** Leaving out a label that does not occur keeps every label. */
  lemma {:induction false} WithoutAbsent(names: seq<string>, l: string)
    requires l !in names
    ensures |Without(names, [l])| == |names|
  {
    if |names| > 0 {
      WithoutAbsent(names[1..], l);
    }
  }

  /** Leaving out a label that occurs once removes one label. */
  lemma {:induction false} WithoutOne(names: seq<string>, l: string)
    requires Distinct(names) && l in names
    ensures |Without(names, [l])| == |names| - 1
  {
    if names[0] == l {
      assert l !in names[1..];
      WithoutAbsent(names[1..], l);
    } else {
      WithoutOne(names[1..], l);
    }
  }

  /** The elements of `s` at positions `idx`, in the order `idx` lists them. */
  function At<T>(s: seq<T>, idx: seq<nat>): (r: seq<T>)
    requires forall k :: 0 <= k < |idx| ==> idx[k] < |s|
    ensures |r| == |idx| && forall k :: 0 <= k < |idx| ==> r[k] == s[idx[k]]
  {
    if |idx| == 0 then [] else [s[idx[0]]] + At(s, idx[1..])
  }

  /** Picking one more position in front picks its element in front. */
  lemma AtCons<T>(s: seq<T>, i: nat, rest: seq<nat>)
    requires i < |s| && forall k :: 0 <= k < |rest| ==> rest[k] < |s|
    ensures At(s, [i] + rest) == [s[i]] + At(s, rest)
  {
    assert ([i] + rest)[1..] == rest;
  }

  /** Leaving labels out of a suffix decides its first label, then goes on with the rest. */
  lemma WithoutStep(names: seq<string>, labels: seq<string>, from: nat)
    requires from < |names|
    ensures Without(names[from..], labels) ==
              (if names[from] in labels then [] else [names[from]]) + Without(names[from + 1..], labels)
  {
    var tail := names[from..];
    assert tail[0] == names[from] && tail[1..] == names[from + 1..];
  }

  lemma {:induction false} SurvivorsInOrder(names: seq<string>, labels: seq<string>, from: nat)
    requires from <= |names|
    ensures At(names, Survivors(names, labels, from)) == Without(names[from..], labels)
    decreases |names| - from
  {
    if from < |names| {
      SurvivorsInOrder(names, labels, from + 1);
      WithoutStep(names, labels, from);
      if names[from] !in labels {
        AtCons(names, from, Survivors(names, labels, from + 1));
      }
    }
  }

  /** The first label of `labels` that is not a column, if any. */
  function FirstMissing(names: seq<string>, labels: seq<string>): (r: Option<string>)
    ensures r.None? <==> forall l :: l in labels ==> l in names
    ensures r.Some? ==> r.value in labels && r.value !in names
  {
    if |labels| == 0 then None
    else if labels[0] !in names then Some(labels[0])
    else FirstMissing(names, labels[1..])
  }

  /** `df.drop(columns=labels)`: KeyError when a label is not a column; otherwise the
      remaining columns in their original order, each with its own cells. */
  function Drop(f: Frame, labels: seq<string>): (r: Result<Frame>)
    requires WellFormed(f)
    ensures r.Err? <==> exists l :: l in labels && l !in Names(f.columns)
    ensures r.Ok? ==> WellFormed(r.value) && |r.value.rows| == |f.rows|
    ensures r.Ok? ==> Names(r.value.columns) == Without(Names(f.columns), labels)
    ensures r.Ok? ==> r.value.columns == Kept(f.columns, labels)
    ensures r.Ok? ==> forall i, n :: 0 <= i < |f.rows| && n !in labels ==>
              Lookup(r.value, i, n) == Lookup(f, i, n)
  {
    var names := Names(f.columns);
    match FirstMissing(names, labels)
    case Some(l) => Err(KeyError(l))
    case None =>
      var idx := Survivors(names, labels, 0);
      SurvivorsDistinct(f, labels);
      SurvivorsNames(f, labels);
      SurvivorsLookup(f, labels);
      SurvivorsInOrder(names, labels, 0);
      SurvivorColumns(f.columns, labels, 0);
      assert names[0..] == names && f.columns[0..] == f.columns;
      assert Select(f, idx).columns == At(f.columns, idx);
      assert Names(Select(f, idx).columns) == At(names, idx);
      Ok(Select(f, idx))
  }

  /** The columns whose labels are not listed in `labels`, in order. */
  function Kept(cols: seq<Column>, labels: seq<string>): seq<Column>
  {
    if |cols| == 0 then []
    else (if cols[0].name in labels then [] else [cols[0]]) + Kept(cols[1..], labels)
  }

  lemma {:induction false} SurvivorColumns(cols: seq<Column>, labels: seq<string>, from: nat)
    requires from <= |cols|
    ensures At(cols, Survivors(Names(cols), labels, from)) == Kept(cols[from..], labels)
    decreases |cols| - from
  {
    if from < |cols| {
      SurvivorColumns(cols, labels, from + 1);
      var tail := cols[from..];
      assert tail[0] == cols[from] && tail[1..] == cols[from + 1..];
      var rest := Survivors(Names(cols), labels, from + 1);
      if cols[from].name !in labels {
        assert ([from] + rest)[1..] == rest;
      }
    }
  }

  lemma SurvivorsDistinct(f: Frame, labels: seq<string>)
    requires WellFormed(f)
    ensures Distinct(Names(Select(f, Survivors(Names(f.columns), labels, 0)).columns))
  {
    var idx := Survivors(Names(f.columns), labels, 0);
    var g := Select(f, idx);
    forall a, b | 0 <= a < b < |g.columns| ensures Names(g.columns)[a] != Names(g.columns)[b] {
      assert idx[a] < idx[b];
    }
  }

  lemma SurvivorsNames(f: Frame, labels: seq<string>)
    requires WellFormed(f)
    ensures forall n :: n in Names(Select(f, Survivors(Names(f.columns), labels, 0)).columns) <==>
              n in Names(f.columns) && n !in labels
  {
    var names := Names(f.columns);
    var idx := Survivors(names, labels, 0);
    var g := Select(f, idx);
    forall n | n in Names(g.columns) ensures n in names && n !in labels {
      var k :| 0 <= k < |g.columns| && Names(g.columns)[k] == n;
      assert n == names[idx[k]];
    }
    forall n | n in names && n !in labels ensures n in Names(g.columns) {
      var i :| 0 <= i < |names| && names[i] == n;
      assert i in idx;
      var k :| 0 <= k < |idx| && idx[k] == i;
      assert Names(g.columns)[k] == n;
    }
  }

  lemma SurvivorsLookup(f: Frame, labels: seq<string>)
    requires WellFormed(f)
    ensures forall i, n :: 0 <= i < |f.rows| && n !in labels ==>
              Lookup(Select(f, Survivors(Names(f.columns), labels, 0)), i, n) == Lookup(f, i, n)
  {
    var names := Names(f.columns);
    var idx := Survivors(names, labels, 0);
    var g := Select(f, idx);
    SurvivorsDistinct(f, labels);
    SurvivorsNames(f, labels);
    forall i, n | 0 <= i < |f.rows| && n !in labels ensures Lookup(g, i, n) == Lookup(f, i, n) {
      if n in names {
        var c :| 0 <= c < |names| && names[c] == n;
        assert c in idx;
        var k :| 0 <= k < |idx| && idx[k] == c;
        SelectLookup(f, idx, k, i);
      } else {
        assert n !in Names(g.columns);
      }
    }
  }

  /** Positions of `schema`'s labels; `None` as soon as one is missing. */
  function Positions(names: seq<string>, schema: seq<string>): (r: Option<seq<nat>>)
    ensures r.None? <==> exists l :: l in schema && l !in names
    ensures r.Some? ==> |r.value| == |schema|
    ensures r.Some? ==> forall k :: 0 <= k < |schema| ==> r.value[k] < |names| && names[r.value[k]] == schema[k]
  {
    if |schema| == 0 then Some([])
    else match IndexOf(names, schema[0])
      case None => None
      case Some(i) =>
        match Positions(names, schema[1..])
        case None => None
        case Some(rest) => Some([i] + rest)
  }

  /** `df[schema]`: exactly the listed columns in the listed order, each with its own
      cells; KeyError on a missing label, never a filled-in column. */
  function Project(f: Frame, schema: seq<string>): (r: Result<Frame>)
    requires WellFormed(f)
    ensures r.Err? <==> exists l :: l in schema && l !in Names(f.columns)
    ensures r.Err? ==> r.error.KeyError? && r.error.key in schema && r.error.key !in Names(f.columns)
    ensures r.Ok? ==> Names(r.value.columns) == schema && Shaped(r.value)
    ensures r.Ok? ==> |r.value.rows| == |f.rows|
    ensures r.Ok? && Distinct(schema) ==> forall i, n :: 0 <= i < |f.rows| && n in schema ==>
              Lookup(r.value, i, n) == Lookup(f, i, n)
  {
    var names := Names(f.columns);
    match Positions(names, schema)
    case None =>
      var l := FirstMissing(names, schema).value;
      Err(KeyError(l))
    case Some(idx) =>
      var g := Select(f, idx);
      assert Names(g.columns) == schema;
      assert Distinct(schema) ==> forall i, n :: 0 <= i < |f.rows| && n in schema ==>
                Lookup(g, i, n) == Lookup(f, i, n) by {
        if Distinct(schema) {
          forall i, n | 0 <= i < |f.rows| && n in schema ensures Lookup(g, i, n) == Lookup(f, i, n) {
            var k :| 0 <= k < |schema| && schema[k] == n;
            SelectLookup(f, idx, k, i);
          }
        }
      }
      Ok(g)
  }

  /** `df[name] = cells`: overwrites the column in place when it exists, appends it otherwise. */
  function SetColumn(f: Frame, col: Column, cells: seq<Cell>): (r: Frame)
    requires WellFormed(f)
    requires |cells| == |f.rows|
    requires forall i :: 0 <= i < |cells| ==> Fits(cells[i], col.kind)
    ensures WellFormed(r) && |r.rows| == |f.rows|
    ensures Names(r.columns) ==
      (if col.name in Names(f.columns) then Names(f.columns) else Names(f.columns) + [col.name])
    ensures col.name !in Names(f.columns) ==> r.columns == f.columns + [col]
    ensures col.name in Names(f.columns) ==> r.columns == f.columns[IndexOf(Names(f.columns), col.name).value := col]
    ensures forall i :: 0 <= i < |f.rows| ==> Lookup(r, i, col.name) == Some(cells[i])
    ensures forall i, n :: 0 <= i < |f.rows| && n != col.name ==> Lookup(r, i, n) == Lookup(f, i, n)
  {
    match IndexOf(Names(f.columns), col.name)
    case None =>
      AppendLookup(f, col, cells);
      Append(f, col, cells)
    case Some(p) =>
      ReplaceLookup(f, p, col, cells);
      Replace(f, p, col, cells)
  }

  function Append(f: Frame, col: Column, cells: seq<Cell>): Frame
    requires |cells| == |f.rows|
  {
    Frame(f.columns + [col], seq(|f.rows|, i requires 0 <= i < |f.rows| => f.rows[i] + [cells[i]]))
  }

  function Replace(f: Frame, p: nat, col: Column, cells: seq<Cell>): Frame
    requires Shaped(f) && p < |f.columns| && |cells| == |f.rows|
  {
    Frame(f.columns[p := col], seq(|f.rows|, i requires 0 <= i < |f.rows| => f.rows[i][p := cells[i]]))
  }

  lemma AppendLookup(f: Frame, col: Column, cells: seq<Cell>)
    requires WellFormed(f) && col.name !in Names(f.columns)
    requires |cells| == |f.rows|
    requires forall i :: 0 <= i < |cells| ==> Fits(cells[i], col.kind)
    ensures WellFormed(Append(f, col, cells))
    ensures Names(Append(f, col, cells).columns) == Names(f.columns) + [col.name]
    ensures forall i :: 0 <= i < |f.rows| ==> Lookup(Append(f, col, cells), i, col.name) == Some(cells[i])
    ensures forall i, n :: 0 <= i < |f.rows| && n != col.name ==>
              Lookup(Append(f, col, cells), i, n) == Lookup(f, i, n)
  {
    AppendShape(f, col, cells);
    forall i | 0 <= i < |f.rows| ensures Lookup(Append(f, col, cells), i, col.name) == Some(cells[i]) {
      IndexOfDistinct(Names(Append(f, col, cells).columns), |f.columns|);
    }
    forall i, n | 0 <= i < |f.rows| && n != col.name ensures Lookup(Append(f, col, cells), i, n) == Lookup(f, i, n) {
      AppendOther(f, col, cells, i, n);
    }
  }

  lemma AppendShape(f: Frame, col: Column, cells: seq<Cell>)
    requires WellFormed(f) && col.name !in Names(f.columns)
    requires |cells| == |f.rows|
    requires forall i :: 0 <= i < |cells| ==> Fits(cells[i], col.kind)
    ensures WellFormed(Append(f, col, cells))
    ensures Names(Append(f, col, cells).columns) == Names(f.columns) + [col.name]
  {
    assert Names(Append(f, col, cells).columns) == Names(f.columns) + [col.name];
  }

  lemma AppendOther(f: Frame, col: Column, cells: seq<Cell>, i: nat, n: string)
    requires WellFormed(f) && |cells| == |f.rows| && n != col.name
    requires WellFormed(Append(f, col, cells)) && Names(Append(f, col, cells).columns) == Names(f.columns) + [col.name]
    ensures Lookup(Append(f, col, cells), i, n) == Lookup(f, i, n)
  {
    var names := Names(f.columns);
    if n in names {
      var c :| 0 <= c < |names| && names[c] == n;
      IndexOfDistinct(names, c);
      IndexOfDistinct(Names(Append(f, col, cells).columns), c);
    } else {
      assert n !in Names(Append(f, col, cells).columns);
    }
  }

  lemma ReplaceLookup(f: Frame, p: nat, col: Column, cells: seq<Cell>)
    requires WellFormed(f) && p < |f.columns| && f.columns[p].name == col.name
    requires |cells| == |f.rows|
    requires forall i :: 0 <= i < |cells| ==> Fits(cells[i], col.kind)
    ensures WellFormed(Replace(f, p, col, cells))
    ensures Names(Replace(f, p, col, cells).columns) == Names(f.columns)
    ensures forall i :: 0 <= i < |f.rows| ==> Lookup(Replace(f, p, col, cells), i, col.name) == Some(cells[i])
    ensures forall i, n :: 0 <= i < |f.rows| && n != col.name ==>
              Lookup(Replace(f, p, col, cells), i, n) == Lookup(f, i, n)
  {
    var names := Names(f.columns);
    var r := Replace(f, p, col, cells);
    assert Names(r.columns) == names;
    IndexOfDistinct(names, p);
    forall i, n | 0 <= i < |f.rows| && n != col.name ensures Lookup(r, i, n) == Lookup(f, i, n) {
      if n in names {
        var c :| 0 <= c < |names| && names[c] == n;
        IndexOfDistinct(names, c);
      }
    }
  }

  /** `df.rename(columns={from: to})`: relabels the column, ignores an absent label. */
  function Rename(f: Frame, from: string, to: string): (r: Frame)
    ensures r.rows == f.rows && |r.columns| == |f.columns|
    ensures forall c :: 0 <= c < |f.columns| ==>
      r.columns[c].kind == f.columns[c].kind &&
      r.columns[c].name == (if f.columns[c].name == from then to else f.columns[c].name)
    ensures WellFormed(f) && to !in Names(f.columns) ==> WellFormed(r)
    ensures WellFormed(f) && to !in Names(f.columns) ==>
              forall i :: 0 <= i < |f.rows| ==> Lookup(r, i, to) == Lookup(f, i, from)
    ensures WellFormed(f) && to !in Names(f.columns) ==>
              forall i, n :: 0 <= i < |f.rows| && n != from && n != to ==> Lookup(r, i, n) == Lookup(f, i, n)
  {
    var r := Frame(seq(|f.columns|, c requires 0 <= c < |f.columns| =>
                     if f.columns[c].name == from then Column(to, f.columns[c].kind) else f.columns[c]),
                   f.rows);
    if WellFormed(f) && to !in Names(f.columns) then RenameLookup(f, from, to, r); r else r
  }

  /** `r` is `f` with every column labelled `from` relabelled `to`. */
  predicate Renamed(f: Frame, from: string, to: string, r: Frame)
  {
    r.rows == f.rows && |r.columns| == |f.columns| &&
    forall c :: 0 <= c < |f.columns| ==>
      r.columns[c].kind == f.columns[c].kind &&
      r.columns[c].name == (if f.columns[c].name == from then to else f.columns[c].name)
  }

  lemma RenameLookup(f: Frame, from: string, to: string, r: Frame)
    requires WellFormed(f) && to !in Names(f.columns) && Renamed(f, from, to, r)
    ensures WellFormed(r)
    ensures forall i :: 0 <= i < |f.rows| ==> Lookup(r, i, to) == Lookup(f, i, from)
    ensures forall i, n :: 0 <= i < |f.rows| && n != from && n != to ==> Lookup(r, i, n) == Lookup(f, i, n)
  {
    RenamedDistinct(f, from, to, r);
    forall i | 0 <= i < |f.rows| ensures Lookup(r, i, to) == Lookup(f, i, from) {
      RenamedTo(f, from, to, r, i);
    }
    forall i, n | 0 <= i < |f.rows| && n != from && n != to ensures Lookup(r, i, n) == Lookup(f, i, n) {
      RenamedOther(f, from, to, r, i, n);
    }
  }

  lemma RenamedDistinct(f: Frame, from: string, to: string, r: Frame)
    requires WellFormed(f) && to !in Names(f.columns) && Renamed(f, from, to, r)
    ensures WellFormed(r)
  {
    var names := Names(f.columns);
    var renamed := Names(r.columns);
    forall a, b | 0 <= a < b < |renamed| ensures renamed[a] != renamed[b] {
      assert names[a] != names[b];
    }
  }

  lemma RenamedTo(f: Frame, from: string, to: string, r: Frame, i: nat)
    requires WellFormed(f) && to !in Names(f.columns) && Renamed(f, from, to, r) && WellFormed(r)
    ensures Lookup(r, i, to) == Lookup(f, i, from)
  {
    var names := Names(f.columns);
    var renamed := Names(r.columns);
    if from in names {
      var c :| 0 <= c < |names| && names[c] == from;
      IndexOfDistinct(names, c);
      IndexOfDistinct(renamed, c);
    } else {
      assert to !in renamed;
    }
  }

  lemma RenamedOther(f: Frame, from: string, to: string, r: Frame, i: nat, n: string)
    requires WellFormed(f) && Renamed(f, from, to, r) && WellFormed(r) && n != from && n != to
    ensures Lookup(r, i, n) == Lookup(f, i, n)
  {
    var names := Names(f.columns);
    var renamed := Names(r.columns);
    if n in names {
      var c :| 0 <= c < |names| && names[c] == n;
      IndexOfDistinct(names, c);
      IndexOfDistinct(renamed, c);
    } else {
      assert n !in renamed;
    }
  }
}
