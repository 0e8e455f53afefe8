/** What the database loader makes of an API payload before inserting it: the rows (a
    page of demand records, or the weather columns turned into rows) and the schema string
    naming their columns; and the table set-up that precedes the first insert. */
module Payloads {

  import opened Base
  import Strings

  /** A JSON object, its keys in the order the payload gave them (as `dict` keeps them). */
  type Record<T> = seq<(string, T)>

  function Keys<T>(d: Record<T>): seq<string>
  {
    seq(|d|, i requires 0 <= i < |d| => d[i].0)
  }

  /** `tuple(d.values())`. */
  function Values<T>(d: Record<T>): seq<T>
  {
    seq(|d|, i requires 0 <= i < |d| => d[i].1)
  }

  // ---------------------------------------------------------------------------
  // `zip(*columns)`.

  predicate AllNonEmpty<T>(cols: seq<seq<T>>)
  {
    forall j :: 0 <= j < |cols| ==> |cols[j]| > 0
  }

  function Heads<T>(cols: seq<seq<T>>): (r: seq<T>)
    requires AllNonEmpty(cols)
    ensures |r| == |cols|
  {
    seq(|cols|, j requires 0 <= j < |cols| => cols[j][0])
  }

  function Tails<T>(cols: seq<seq<T>>): (r: seq<seq<T>>)
    requires AllNonEmpty(cols)
    ensures |r| == |cols|
  {
    seq(|cols|, j requires 0 <= j < |cols| => cols[j][1..])
  }

  /** `zip(*cols)`: a tuple of the columns' heads while every column has one left; no
      columns give no rows. The rows number the shortest column's length, and row `i` is
      entry `i` of every column, in column order. */
  function Zip<T>(cols: seq<seq<T>>): (rows: seq<seq<T>>)
    ensures forall j :: 0 <= j < |cols| ==> |rows| <= |cols[j]|
    ensures |cols| > 0 ==> exists j :: 0 <= j < |cols| && |cols[j]| == |rows|
    ensures |cols| == 0 ==> rows == []
    ensures forall i :: 0 <= i < |rows| ==> |rows[i]| == |cols|
    ensures forall i, j :: 0 <= i < |rows| && 0 <= j < |cols| ==> rows[i][j] == cols[j][i]
    decreases if |cols| == 0 then 0 else |cols[0]|
  {
    if |cols| == 0 || !AllNonEmpty(cols) then []
    else
      var rest := Zip(Tails(cols));
      assert forall j :: 0 <= j < |cols| ==> |Tails(cols)[j]| == |cols[j]| - 1;
      [Heads(cols)] + rest
  }

  /** Columns of one common length `n >= 1` come back unchanged from two transposes. */
  lemma ZipRoundTrip<T>(cols: seq<seq<T>>, n: nat)
    requires |cols| > 0 && n > 0
    requires forall j :: 0 <= j < |cols| ==> |cols[j]| == n
    ensures Zip(Zip(cols)) == cols
  {
    var rows := Zip(cols);
    assert |rows| == n;
    var back := Zip(rows);
    assert |back| == |cols|;
    forall j | 0 <= j < |cols|
      ensures back[j] == cols[j]
    {
      assert |back[j]| == n;
      forall i | 0 <= i < n
        ensures back[j][i] == cols[j][i]
      {
        assert back[j][i] == rows[i][j];
      }
    }
  }

  // ---------------------------------------------------------------------------
  // Schema strings.

  /** `", ".join(keys)`, with every `-` turned into `_` on the demand path (its keys, such
      as `subba-name`, are not valid column names). */
  function SchemaString(keys: seq<string>, underscore: bool): (r: string)
    ensures underscore ==> '-' !in r
  {
    var s := Strings.Join(keys, ", ");
    if underscore then Strings.ReplaceRemovesChar(s, '-', "_"); Strings.ReplaceAll(s, "-", "_") else s
  }

  /** The keys after the demand path's replacement. */
  function Underscored(keys: seq<string>): (r: seq<string>)
    ensures |r| == |keys|
  {
    seq(|keys|, i requires 0 <= i < |keys| => Strings.ReplaceAll(keys[i], "-", "_"))
  }

  /** Every key after the first, behind the space of the separator. */
  function Spaced(keys: seq<string>): (r: seq<string>)
    ensures |r| == |keys|
  {
    seq(|keys|, i requires 0 <= i < |keys| => " " + keys[i])
  }

  lemma {:induction false} JoinSpaced(keys: seq<string>)
    requires |keys| > 0
    ensures Strings.Join(keys, ", ") == Strings.Join([keys[0]] + Spaced(keys[1..]), ",")
    decreases |keys|
  {
    if |keys| > 1 {
      var tail := keys[1..];
      JoinSpaced(tail);
      var parts := [keys[0]] + Spaced(tail);
      assert parts[1..] == [" " + tail[0]] + Spaced(tail[1..]);
      calc {
        Strings.Join(parts, ",");
        keys[0] + "," + Strings.Join(parts[1..], ",");
        keys[0] + "," + Strings.Join([" " + tail[0]] + Spaced(tail[1..]), ",");
        { OneSpaced(tail); }
        keys[0] + "," + (" " + Strings.Join(tail, ", "));
      }
    }
  }

  /** Putting a space before the first part adds one before the whole join. */
  lemma OneSpaced(tail: seq<string>)
    requires |tail| > 0
    ensures Strings.Join([" " + tail[0]] + Spaced(tail[1..]), ",") == " " + Strings.Join([tail[0]] + Spaced(tail[1..]), ",")
  {
    var a := [" " + tail[0]] + Spaced(tail[1..]);
    var b := [tail[0]] + Spaced(tail[1..]);
    assert a[1..] == b[1..];
  }

  /** A server splitting the schema string at its commas finds the keys back, every one
      after the first behind a space, when no key holds a comma. */
  lemma SchemaSplit(keys: seq<string>)
    requires |keys| > 0 && forall i :: 0 <= i < |keys| ==> ',' !in keys[i]
    ensures Strings.Split(SchemaString(keys, false), ',') == [keys[0]] + Spaced(keys[1..])
  {
    JoinSpaced(keys);
    Strings.SplitJoin([keys[0]] + Spaced(keys[1..]), ',');
  }

  /** On the demand path the replacement acts key by key (the separator has no `-`), and
      no `-` is left. */
  lemma {:induction false} DemandSchema(keys: seq<string>)
    ensures SchemaString(keys, true) == Strings.Join(Underscored(keys), ", ")
    ensures '-' !in SchemaString(keys, true)
    decreases |keys|
  {
    Strings.ReplaceRemovesChar(Strings.Join(keys, ", "), '-', "_");
    if |keys| > 1 {
      DemandSchema(keys[1..]);
      assert Underscored(keys)[1..] == Underscored(keys[1..]);
      UnderscoreAround(keys[0], Strings.Join(keys[1..], ", "));
    }
  }

  lemma UnderscoreAround(key: string, rest: string)
    ensures Strings.ReplaceAll(key + ", " + rest, "-", "_") ==
              Strings.ReplaceAll(key, "-", "_") + ", " + Strings.ReplaceAll(rest, "-", "_")
  {
    Strings.ReplaceCharAppend(key, ", " + rest, '-', "_");
    Strings.ReplaceCharAppend(", ", rest, '-', "_");
    assert Strings.ReplaceAll(", ", "-", "_") == ", ";
    assert key + ", " + rest == key + (", " + rest);
  }

  // ---------------------------------------------------------------------------
  // Batches.

  /** What one `populate_table` call inserts: the column list and the rows. */
  datatype Batch<T> = Batch(schema: string, rows: seq<seq<T>>)

  /** A demand page: one tuple of values per record, the columns named by the first
      record's keys; an empty page fails at `data_list[0]`. */
  function DemandBatch<T>(page: seq<Record<T>>): (r: Result<Batch<T>>)
    ensures r.Err? <==> |page| == 0
    ensures r.Err? ==> r.error == IndexError
    ensures r.Ok? ==> '-' !in r.value.schema && |r.value.rows| == |page|
    ensures r.Ok? ==> forall i :: 0 <= i < |page| ==> r.value.rows[i] == Values(page[i])
  {
    if |page| == 0 then Err(IndexError)
    else
      DemandSchema(Keys(page[0]));
      Ok(Batch(SchemaString(Keys(page[0]), true), seq(|page|, i requires 0 <= i < |page| => Values(page[i]))))
  }

  /** A weather payload's `daily` object: its keys name the columns and its values, one
      list per key, become rows. */
  function WeatherBatch<T>(daily: Record<seq<T>>): (b: Batch<T>)
    ensures |daily| > 0 ==> exists j :: 0 <= j < |daily| && |daily[j].1| == |b.rows|
    ensures forall j :: 0 <= j < |daily| ==> |b.rows| <= |daily[j].1|
    ensures forall i, j :: 0 <= i < |b.rows| && 0 <= j < |daily| ==> |b.rows[i]| == |daily| && b.rows[i][j] == daily[j].1[i]
  {
    var cols := Values(daily);
    assert forall j :: 0 <= j < |daily| ==> cols[j] == daily[j].1;
    Batch(SchemaString(Keys(daily), false), Zip(cols))
  }

  // ---------------------------------------------------------------------------
  // `setup_and_create_table`.

  /** `tab_schemas.get(key, -1)`: the column definitions, or the `-1` an unknown key gets. */
  datatype Schema = Columns(sql: string) | MinusOne

  function LookupSchema(schemas: map<string, string>, key: string): (s: Schema)
    ensures s.MinusOne? <==> key !in schemas
    ensures s.Columns? ==> s.sql == schemas[key]
  {
    if key in schemas then Columns(schemas[key]) else MinusOne
  }

  /** Creating table `key` in a database holding `tables`: an unreachable server raises
      OperationalError; a `-1` schema makes the statement invalid SQL, rejected before the
      table is looked at; an existing table raises DuplicateTable, which the caller
      swallows, leaving the database as it was. */
  function SetupAndCreateTable(tables: set<string>, reachable: bool, schemas: map<string, string>, key: string): (r: Result<set<string>>)
    ensures r.Ok? <==> reachable && key in schemas
    ensures !reachable ==> r == Err(OperationalError)
    ensures reachable && key !in schemas ==> r == Err(SqlError)
    ensures r.Ok? ==> r.value == tables + {key}
  {
    if !reachable then Err(OperationalError)
    else match LookupSchema(schemas, key)
      case MinusOne => Err(SqlError)
      case Columns(_) => if key in tables then Ok(tables) else Ok(tables + {key})
  }

  /** Setting up a table twice is setting it up once: the second call meets DuplicateTable
      and swallows it. */
  lemma SetupIdempotent(tables: set<string>, schemas: map<string, string>, key: string)
    requires SetupAndCreateTable(tables, true, schemas, key).Ok?
    ensures var once := SetupAndCreateTable(tables, true, schemas, key).value;
            SetupAndCreateTable(once, true, schemas, key) == Ok(once)
  {
  }
}
