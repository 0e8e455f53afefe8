/** `DatabaseHandler` of the database store: filling the request URL template from the
    configured query, and the guard on its one connection. */
module DbHandler {

  import opened Base
  import Strings
  import Calendar

  // ---------------------------------------------------------------------------
  // Templates as text and placeholders.

  /** A stretch of a template: text without `<`, or a placeholder `<name>`. */
  datatype Piece = Text(s: string) | Hole(name: string)

  /** A placeholder name is free of the brackets and of line breaks. */
  predicate GoodName(n: string)
  {
    '<' !in n && '>' !in n && '\n' !in n
  }

  predicate Good(p: Piece)
  {
    match p
    case Text(s) => '<' !in s
    case Hole(n) => GoodName(n)
  }

  predicate AllGood(ps: seq<Piece>)
  {
    forall i :: 0 <= i < |ps| ==> Good(ps[i])
  }

  function Placeholder(name: string): string
  {
    "<" + name + ">"
  }

  function Show(p: Piece): string
  {
    match p
    case Text(s) => s
    case Hole(n) => Placeholder(n)
  }

  /** The template the pieces spell. */
  function Render(ps: seq<Piece>): string
  {
    if |ps| == 0 then "" else Show(ps[0]) + Render(ps[1..])
  }

  lemma {:induction false} RenderAppend(a: seq<Piece>, b: seq<Piece>)
    ensures Render(a + b) == Render(a) + Render(b)
    decreases |a|
  {
    if |a| == 0 {
      assert a + b == b;
    } else {
      assert (a + b)[1..] == a[1..] + b;
      RenderAppend(a[1..], b);
    }
  }

  /** Every `Hole(name)` swapped for the pieces of `value`. */
  function Fill(ps: seq<Piece>, name: string, value: seq<Piece>): seq<Piece>
  {
    if |ps| == 0 then [] else (if ps[0] == Hole(name) then value else [ps[0]]) + Fill(ps[1..], name, value)
  }

  /** The text of another placeholder is not a match: the names differ at some position,
      or one ends where the other has a letter and the closing `>` cannot be a letter. */
  lemma PlaceholderMismatch(n: string, name: string, rest: string)
    requires GoodName(n) && GoodName(name) && n != name
    requires |Placeholder(name)| <= |Placeholder(n) + rest|
    ensures (Placeholder(n) + rest)[..|Placeholder(name)|] != Placeholder(name)
  {
    var s, pat := Placeholder(n) + rest, Placeholder(name);
    var k := DifferAt(n, name);
    assert k < |pat| && s[k] != pat[k];
    assert s[..|pat|][k] != pat[k];
  }

  /** A position where the two placeholders' texts differ. */
  lemma DifferAt(n: string, name: string) returns (k: nat)
    requires GoodName(n) && GoodName(name) && n != name
    ensures k < |Placeholder(n)| && k < |Placeholder(name)|
    ensures Placeholder(n)[k] != Placeholder(name)[k]
  {
    var a, b := Placeholder(n), Placeholder(name);
    if |name| < |n| {
      k := |name| + 1;
      assert b[k] == '>' && a[k] == n[|name|];
    } else if |name| > |n| {
      k := |n| + 1;
      assert a[k] == '>' && b[k] == name[|n|];
    } else {
      assert exists j :: 0 <= j < |n| && n[j] != name[j];
      var j :| 0 <= j < |n| && n[j] != name[j];
      k := j + 1;
      assert a[k] == n[j] && b[k] == name[j];
    }
  }

  /** Another placeholder is passed over whole. */
  lemma HoleOther(n: string, name: string, rest: string, rep: string)
    requires GoodName(n) && GoodName(name) && n != name
    ensures Strings.ReplaceAll(Placeholder(n) + rest, Placeholder(name), rep) ==
              Placeholder(n) + Strings.ReplaceAll(rest, Placeholder(name), rep)
  {
    if |Placeholder(n) + rest| < |Placeholder(name)| {
      assert |rest| < |Placeholder(name)|;
    } else {
      PlaceholderMismatch(n, name, rest);
      HoleOtherStep(n, rest, Placeholder(name), rep);
    }
  }

  /** A pattern starting with `<` that does not match at a placeholder moves past it. */
  lemma HoleOtherStep(n: string, rest: string, pat: string, rep: string)
    requires |pat| > 0 && pat[0] == '<' && '<' !in n
    requires |pat| <= |Placeholder(n) + rest| && (Placeholder(n) + rest)[..|pat|] != pat
    ensures Strings.ReplaceAll(Placeholder(n) + rest, pat, rep) == Placeholder(n) + Strings.ReplaceAll(rest, pat, rep)
  {
    PlaceholderSplit(n, rest);
    PlaceholderSplit(n, Strings.ReplaceAll(rest, pat, rep));
    Strings.ReplaceMismatch(Placeholder(n) + rest, pat, rep);
    Strings.ReplaceSkipsPrefix(n + ">", rest, pat, rep);
  }

  lemma PlaceholderSplit(n: string, rest: string)
    ensures Placeholder(n) + rest == "<" + ((n + ">") + rest)
  {
  }

  /** `str.replace` of a placeholder on a template is filling the template's holes of that
      name: text cannot hold part of a placeholder, and another placeholder never matches. */
  lemma {:induction false} ReplaceIsFill(ps: seq<Piece>, name: string, value: seq<Piece>)
    requires AllGood(ps) && GoodName(name)
    ensures Strings.ReplaceAll(Render(ps), Placeholder(name), Render(value)) == Render(Fill(ps, name, value))
    decreases |ps|
  {
    var pat, rep := Placeholder(name), Render(value);
    if |ps| > 0 {
      var rest := Render(ps[1..]);
      ReplaceIsFill(ps[1..], name, value);
      var tail := Fill(ps[1..], name, value);
      match ps[0]
      case Text(s) =>
        Strings.ReplaceSkipsPrefix(s, rest, pat, rep);
        assert Fill(ps, name, value) == [Text(s)] + tail;
        assert ([Text(s)] + tail)[1..] == tail;
      case Hole(n) =>
        if n == name {
          Strings.ReplaceAtMatch(pat, rest, rep);
          RenderAppend(value, tail);
        } else {
          HoleOther(n, name, rest, rep);
          assert Fill(ps, name, value) == [Hole(n)] + tail;
          assert ([Hole(n)] + tail)[1..] == tail;
        }
    }
  }

  /** With a one-piece value, filling maps each piece on its own. */
  lemma {:induction false} FillOne(ps: seq<Piece>, name: string, v: Piece)
    ensures Fill(ps, name, [v]) == seq(|ps|, i requires 0 <= i < |ps| => if ps[i] == Hole(name) then v else ps[i])
    decreases |ps|
  {
    if |ps| > 0 {
      FillOne(ps[1..], name, v);
    }
  }

  // ---------------------------------------------------------------------------
  // `parse_api_url`.

  /** The query section of the configuration, every value as `str()` renders it. */
  datatype Query = Query(subba: string, start: string, end: string, offset: string, chunkLen: string, apiKey: string)

  /** The `replacements` dict, in its insertion order, names without their brackets. */
  function Replacements(q: Query): seq<(string, string)>
  {
    [("SUBBA_CODE", q.subba), ("START_DATE", q.start), ("OFFSET", q.offset), ("CHUNK_LEN", q.chunkLen),
     ("API_KEY", q.apiKey)]
  }

  /** The `<END_DATE>` value: yesterday as `YYYY-MM-DD` when the configuration says
      `today` (the clock is the parameter `today`; a day before 0001-01-01 overflows),
      otherwise the configured value. */
  function EndDate(q: Query, today: Calendar.Day): (r: Result<string>)
    ensures q.end != "today" ==> r == Ok(q.end)
    ensures q.end == "today" ==> (r.Ok? <==> today != Calendar.Date(1, 1, 1))
    ensures q.end == "today" && r.Ok? ==>
              |r.value| == 10 && Calendar.ParseIso(r.value) == Some(Calendar.PrevDay(today).value)
    ensures r.Err? ==> r.error == Overflow
  {
    if q.end == "today" then
      var yesterday :- Calendar.PrevDay(today);
      Calendar.FormatIsoRoundTrip(yesterday);
      Ok(Calendar.FormatIso(yesterday))
    else Ok(q.end)
  }

  /** `for old, new in replacements.items(): url = url.replace(old, new)`. */
  function ReplaceEach(url: string, reps: seq<(string, string)>): string
    decreases |reps|
  {
    if |reps| == 0 then url else ReplaceEach(Strings.ReplaceAll(url, Placeholder(reps[0].0), reps[0].1), reps[1..])
  }

  /** `parse_api_url(url)`: line breaks out first, then `<END_DATE>`, then the five
      placeholders in dict order, each at every occurrence. */
  function ParseApiUrl(url: string, q: Query, today: Calendar.Day): (r: Result<string>)
    ensures r.Err? <==> EndDate(q, today).Err?
  {
    var u := Strings.ReplaceAll(url, "\n", "");
    var e :- EndDate(q, today);
    Ok(ReplaceEach(Strings.ReplaceAll(u, Placeholder("END_DATE"), e), Replacements(q)))
  }

  // ---------------------------------------------------------------------------
  // The reference: one pass over the template.

  /** The value of the first replacement named `n`. */
  function Lookup(reps: seq<(string, string)>, n: string): Option<string>
  {
    if |reps| == 0 then None else if reps[0].0 == n then Some(reps[0].1) else Lookup(reps[1..], n)
  }

  function ResolvePiece(p: Piece, reps: seq<(string, string)>): Piece
  {
    match p
    case Text(_) => p
    case Hole(n) => match Lookup(reps, n) case Some(v) => Text(v) case None => p
  }

  /** Every placeholder with a configured value replaced by it, all in one pass. */
  function Resolve(ps: seq<Piece>, reps: seq<(string, string)>): (r: seq<Piece>)
    ensures |r| == |ps|
  {
    seq(|ps|, i requires 0 <= i < |ps| => ResolvePiece(ps[i], reps))
  }

  /** One piece with its line breaks removed (a placeholder has none). */
  function StripPiece(p: Piece): Piece
  {
    match p
    case Text(s) => Text(Strings.ReplaceAll(s, "\n", ""))
    case Hole(_) => p
  }

  /** Line breaks removed from the text of the template. */
  function Strip(ps: seq<Piece>): (r: seq<Piece>)
    ensures |r| == |ps|
  {
    seq(|ps|, i requires 0 <= i < |ps| => StripPiece(ps[i]))
  }

  predicate GoodReps(reps: seq<(string, string)>)
  {
    forall k :: 0 <= k < |reps| ==> GoodName(reps[k].0) && '<' !in reps[k].1
  }

  lemma StripPieceShow(p: Piece)
    requires Good(p)
    ensures Strings.ReplaceAll(Show(p), "\n", "") == Show(StripPiece(p)) && Good(StripPiece(p))
  {
    match p
    case Text(s) =>
      Strings.ReplaceCharNoNew(s, '\n', "", '<');
    case Hole(n) =>
      assert '\n' !in Placeholder(n);
      Strings.ReplaceCharAbsent(Placeholder(n), '\n', "");
  }

  /** Removing line breaks from the template removes them from its text. */
  lemma {:induction false} StripRender(ps: seq<Piece>)
    requires AllGood(ps)
    ensures Strings.ReplaceAll(Render(ps), "\n", "") == Render(Strip(ps))
    ensures AllGood(Strip(ps))
    decreases |ps|
  {
    if |ps| > 0 {
      StripRender(ps[1..]);
      assert Strip(ps)[1..] == Strip(ps[1..]);
      Strings.ReplaceCharAppend(Show(ps[0]), Render(ps[1..]), '\n', "");
      StripPieceShow(ps[0]);
    }
  }

  /** Replacing one name after another is resolving them all in one pass, as long as no
      value brings in a placeholder of its own. */
  lemma {:induction false} ReplaceEachResolves(ps: seq<Piece>, reps: seq<(string, string)>)
    requires AllGood(ps) && GoodReps(reps)
    ensures ReplaceEach(Render(ps), reps) == Render(Resolve(ps, reps))
    decreases |reps|
  {
    if |reps| == 0 {
      assert Resolve(ps, reps) == ps;
    } else {
      var name, v := reps[0].0, reps[0].1;
      ReplaceIsFill(ps, name, [Text(v)]);
      FillOne(ps, name, Text(v));
      var filled := Fill(ps, name, [Text(v)]);
      assert Render([Text(v)]) == v;
      assert AllGood(filled);
      ReplaceEachResolves(filled, reps[1..]);
      ResolveFirst(ps, reps);
    }
  }

  /** Filling in the first name and then resolving the rest resolves them all. */
  lemma ResolveFirst(ps: seq<Piece>, reps: seq<(string, string)>)
    requires |reps| > 0
    ensures Resolve(Fill(ps, reps[0].0, [Text(reps[0].1)]), reps[1..]) == Resolve(ps, reps)
  {
    var filled := Fill(ps, reps[0].0, [Text(reps[0].1)]);
    FillOne(ps, reps[0].0, Text(reps[0].1));
    forall i | 0 <= i < |ps|
      ensures ResolvePiece(filled[i], reps[1..]) == ResolvePiece(ps[i], reps)
    {
    }
  }

  // The six names are checked two at a time: character membership in string literals is
  // costly for the solver, and one lemma for all six runs near its resource limit.

  lemma FirstNamesGood()
    ensures GoodName("END_DATE") && GoodName("SUBBA_CODE")
  {
  }

  lemma MiddleNamesGood()
    ensures GoodName("START_DATE") && GoodName("OFFSET")
  {
  }

  lemma LastNamesGood()
    ensures GoodName("CHUNK_LEN") && GoodName("API_KEY")
  {
  }

  /** The configured names and `END_DATE` are good placeholder names. */
  lemma NamesGood()
    ensures GoodName("END_DATE") && GoodName("SUBBA_CODE") && GoodName("START_DATE")
    ensures GoodName("OFFSET") && GoodName("CHUNK_LEN") && GoodName("API_KEY")
  {
    FirstNamesGood();
    MiddleNamesGood();
    LastNamesGood();
  }

  /** The six replacements in the order `parse_api_url` applies them. */
  function AllReplacements(q: Query, e: string): seq<(string, string)>
  {
    [("END_DATE", e)] + Replacements(q)
  }

  /** No configured value holds a `<`. */
  predicate PlainQuery(q: Query)
  {
    '<' !in q.subba && '<' !in q.start && '<' !in q.end && '<' !in q.offset && '<' !in q.chunkLen && '<' !in q.apiKey
  }

  lemma AllReplacementsGood(q: Query, e: string)
    requires PlainQuery(q) && '<' !in e
    ensures GoodReps(AllReplacements(q, e))
  {
    NamesGood();
  }

  lemma IsoDatePlain(d: Calendar.Day)
    ensures '<' !in Calendar.FormatIso(d)
  {
  }

  lemma EndDatePlain(q: Query, today: Calendar.Day)
    requires PlainQuery(q) && EndDate(q, today).Ok?
    ensures '<' !in EndDate(q, today).value
  {
    if q.end == "today" {
      IsoDatePlain(Calendar.PrevDay(today).value);
    }
  }

  /** `parse_api_url` is the six replacements applied in turn to the URL without its line
      breaks. */
  lemma ParseApiUrlSteps(url: string, q: Query, today: Calendar.Day)
    requires EndDate(q, today).Ok?
    ensures ParseApiUrl(url, q, today) ==
              Ok(ReplaceEach(Strings.ReplaceAll(url, "\n", ""), AllReplacements(q, EndDate(q, today).value)))
  {
    var reps := AllReplacements(q, EndDate(q, today).value);
    assert reps[1..] == Replacements(q);
  }

  /** `parse_api_url` on a template is the template with its line breaks dropped and every
      known placeholder resolved in one pass, when no configured value holds a `<`. */
  lemma ParseApiUrlResolves(ps: seq<Piece>, q: Query, today: Calendar.Day)
    requires AllGood(ps) && PlainQuery(q) && EndDate(q, today).Ok?
    ensures ParseApiUrl(Render(ps), q, today) ==
              Ok(Render(Resolve(Strip(ps), AllReplacements(q, EndDate(q, today).value))))
  {
    var e := EndDate(q, today).value;
    ParseApiUrlSteps(Render(ps), q, today);
    StripRender(ps);
    EndDatePlain(q, today);
    AllReplacementsGood(q, e);
    ReplaceEachResolves(Strip(ps), AllReplacements(q, e));
  }

  predicate Known(n: string)
  {
    n == "END_DATE" || n == "SUBBA_CODE" || n == "START_DATE" || n == "OFFSET" || n == "CHUNK_LEN" || n == "API_KEY"
  }

  /** Every placeholder of the template is one of the six. */
  predicate AllKnown(ps: seq<Piece>)
  {
    forall i :: 0 <= i < |ps| && ps[i].Hole? ==> Known(ps[i].name)
  }

  /** When every placeholder of the template is one of the six, none survives: the URL
      holds no `<` at all, so no placeholder text. */
  lemma NoPlaceholderLeft(ps: seq<Piece>, q: Query, today: Calendar.Day, name: string)
    requires AllGood(ps) && AllKnown(ps) && PlainQuery(q) && EndDate(q, today).Ok?
    ensures '<' !in ParseApiUrl(Render(ps), q, today).value
    ensures !Strings.Occurs(ParseApiUrl(Render(ps), q, today).value, Placeholder(name))
  {
    ParseApiUrlResolves(ps, q, today);
    EndDatePlain(q, today);
    StripRender(ps);
    var e := EndDate(q, today).value;
    var out := Resolve(Strip(ps), AllReplacements(q, e));
    AllResolved(Strip(ps), q, e);
    TextOnly(out);
    Strings.AbsentLead(Render(out), Placeholder(name));
  }

  /** Resolving a template whose placeholders are all known leaves text only. */
  lemma AllResolved(ps: seq<Piece>, q: Query, e: string)
    requires AllGood(ps) && AllKnown(ps) && PlainQuery(q) && '<' !in e
    ensures forall i :: 0 <= i < |ps| ==>
              Resolve(ps, AllReplacements(q, e))[i].Text? && '<' !in Resolve(ps, AllReplacements(q, e))[i].s
  {
    forall i | 0 <= i < |ps|
      ensures ResolvePiece(ps[i], AllReplacements(q, e)).Text? && '<' !in ResolvePiece(ps[i], AllReplacements(q, e)).s
    {
      KnownResolves(ps[i], q, e);
    }
  }

  lemma KnownResolves(p: Piece, q: Query, e: string)
    requires Good(p) && PlainQuery(q) && '<' !in e
    requires p.Hole? ==> Known(p.name)
    ensures ResolvePiece(p, AllReplacements(q, e)).Text? && '<' !in ResolvePiece(p, AllReplacements(q, e)).s
  {
    if p.Hole? {
      var reps := AllReplacements(q, e);
      AllReplacementsGood(q, e);
      var k := KnownIndex(p.name);
      assert reps[k].0 == p.name;
      LookupFinds(reps, p.name);
    }
  }

  /** Where a known name stands among the six replacements. */
  function KnownIndex(n: string): (k: nat)
    requires Known(n)
    ensures k < 6
    ensures forall q: Query, e: string :: AllReplacements(q, e)[k].0 == n
  {
    if n == "END_DATE" then 0 else if n == "SUBBA_CODE" then 1 else if n == "START_DATE" then 2
    else if n == "OFFSET" then 3 else if n == "CHUNK_LEN" then 4 else 5
  }

  lemma {:induction false} LookupFinds(reps: seq<(string, string)>, n: string)
    requires GoodReps(reps) && exists k :: 0 <= k < |reps| && reps[k].0 == n
    ensures Lookup(reps, n).Some? && '<' !in Lookup(reps, n).value
    decreases |reps|
  {
    if reps[0].0 != n {
      var k :| 0 <= k < |reps| && reps[k].0 == n;
      assert reps[1..][k - 1].0 == n;
      LookupFinds(reps[1..], n);
    }
  }

  lemma {:induction false} TextOnly(ps: seq<Piece>)
    requires forall i :: 0 <= i < |ps| ==> ps[i].Text? && '<' !in ps[i].s
    ensures '<' !in Render(ps)
    decreases |ps|
  {
    if |ps| > 0 {
      TextOnly(ps[1..]);
    }
  }

  /** Replacing another placeholder leaves a placeholder as it is. */
  lemma PlaceholderKept(n: string, name: string, v: string)
    requires GoodName(n) && GoodName(name) && n != name
    ensures Strings.ReplaceAll(Placeholder(n), Placeholder(name), v) == Placeholder(n)
  {
    HoleOther(n, name, "", v);
    assert Placeholder(n) + "" == Placeholder(n);
  }

  /** Replacing a placeholder on its own gives the value. */
  lemma PlaceholderHit(name: string, v: string)
    ensures Strings.ReplaceAll(Placeholder(name), Placeholder(name), v) == v
  {
    Strings.ReplaceAtMatch(Placeholder(name), "", v);
    assert Placeholder(name) + "" == Placeholder(name);
  }

  /** The replacements after `START_DATE` turn `<API_KEY>` into the key. */
  lemma KeyRewritten(q: Query)
    ensures ReplaceEach(Placeholder("API_KEY"), Replacements(q)[2..]) == q.apiKey
  {
    MiddleNamesGood();
    LastNamesGood();
    var k := Placeholder("API_KEY");
    var r1 := [("API_KEY", q.apiKey)];
    var r2 := [("CHUNK_LEN", q.chunkLen)] + r1;
    var r3 := [("OFFSET", q.offset)] + r2;
    assert Replacements(q)[2..] == r3;
    PlaceholderHit("API_KEY", q.apiKey);
    assert r1[1..] == [];
    assert ReplaceEach(k, r1) == q.apiKey;
    PlaceholderKept("API_KEY", "CHUNK_LEN", q.chunkLen);
    assert r2[1..] == r1;
    assert ReplaceEach(k, r2) == q.apiKey;
    PlaceholderKept("API_KEY", "OFFSET", q.offset);
    assert r3[1..] == r2;
  }

  /** The dict's replacements turn `<START_DATE>` into the start date, and that, being
      `<API_KEY>`, into the key. */
  lemma StartRewritten(q: Query)
    requires q.start == Placeholder("API_KEY")
    ensures ReplaceEach(Placeholder("START_DATE"), Replacements(q)) == q.apiKey
  {
    FirstNamesGood();
    MiddleNamesGood();
    var s := Placeholder("START_DATE");
    var reps := Replacements(q);
    var r5 := [("SUBBA_CODE", q.subba)] + ([("START_DATE", q.start)] + reps[2..]);
    assert reps == r5;
    PlaceholderHit("START_DATE", q.start);
    KeyRewritten(q);
    assert r5[1..][1..] == reps[2..];
    assert ReplaceEach(s, r5[1..]) == q.apiKey;
    PlaceholderKept("START_DATE", "SUBBA_CODE", q.subba);
  }

  /** A configured value that is itself a later placeholder is rewritten in turn: a start
      date of `<API_KEY>` comes out as the key. */
  lemma ValueRewritten(q: Query, today: Calendar.Day)
    requires q.start == Placeholder("API_KEY") && EndDate(q, today).Ok?
    ensures ParseApiUrl(Placeholder("START_DATE"), q, today) == Ok(q.apiKey)
  {
    FirstNamesGood();
    MiddleNamesGood();
    var s := Placeholder("START_DATE");
    assert '\n' !in s;
    Strings.ReplaceCharAbsent(s, '\n', "");
    PlaceholderKept("START_DATE", "END_DATE", EndDate(q, today).value);
    StartRewritten(q);
  }

  // ---------------------------------------------------------------------------
  // The connection guard.

  datatype Connection = Connection(open: bool)

  /** The handler's `conn` and the tables of the database behind it. */
  datatype State = State(conn: Option<Connection>, tables: set<string>)

  /** `connect()`: opens a connection only when there is none; an unreachable server
      raises OperationalError and leaves the handler as it was. */
  function Connect(st: State, reachable: bool): (r: Result<State>)
    ensures st.conn.Some? ==> r == Ok(st)
    ensures st.conn.None? ==> (r.Ok? <==> reachable)
    ensures r.Ok? ==> r.value.conn.Some? && r.value.tables == st.tables
    ensures r.Err? ==> r.error == OperationalError
  {
    if st.conn.Some? then Ok(st)
    else if reachable then Ok(st.(conn := Some(Connection(true))))
    else Err(OperationalError)
  }

  /** Connecting twice is connecting once. */
  lemma ConnectIdempotent(st: State, reachable: bool, again: bool)
    requires Connect(st, reachable).Ok?
    ensures Connect(Connect(st, reachable).value, again) == Connect(st, reachable)
  {
  }

  /** `close()` as written: the second definition in the class, whose body is `pass`,
      replaces the first. */
  function Close(st: State): State
  {
    st
  }

  /** As written, closing and connecting again keeps the old connection: it is neither
      closed nor dropped, so `connect` finds one and opens none. */
  lemma CloseKeepsConnection(st: State, reachable: bool)
    requires st.conn.Some?
    ensures Close(st).conn == st.conn
    ensures Connect(Close(st), reachable) == Ok(st)
  {
  }

  /** The first definition: close the connection and forget it. */
  function CloseConnection(st: State): (r: State)
    ensures r.conn.None? && r.tables == st.tables
  {
    if st.conn.Some? then st.(conn := None) else st
  }

  /** After the intended close, `connect` opens a fresh connection. */
  lemma CloseThenConnect(st: State)
    ensures Connect(CloseConnection(st), true) == Ok(st.(conn := Some(Connection(true))))
  {
  }

  /** The state after a call, and its outcome. */
  datatype Outcome = Outcome(st: State, r: Result<()>)

  /** `create_table(tab_name, tab_schema)` for a statement creating `name`: nothing (but a
      message) without a connection; a closed connection cannot give a cursor; an existing
      table raises DuplicateTable after the connection is closed, though `conn` still
      holds it. */
  function CreateTable(st: State, name: string): (o: Outcome)
    ensures st.conn.None? ==> o == Outcome(st, Ok(()))
    ensures o.r.Ok? && st.conn.Some? ==> name in o.st.tables
    ensures o.st.tables - {name} == st.tables - {name} && st.tables <= o.st.tables
    ensures o.r.Err? ==> o.st.tables == st.tables
  {
    match st.conn
    case None => Outcome(st, Ok(()))
    case Some(c) =>
      if !c.open then Outcome(st, Err(InterfaceError))
      else if name in st.tables then Outcome(st.(conn := Some(Connection(false))), Err(DuplicateTable(name)))
      else Outcome(st.(tables := st.tables + {name}), Ok(()))
  }

  /** As written, a DuplicateTable leaves the handler stuck: `connect` keeps the closed
      connection and every later `create_table` fails. */
  lemma DuplicateLeavesClosed(st: State, name: string, other: string, reachable: bool)
    requires st.conn == Some(Connection(true)) && name in st.tables
    ensures var after := CreateTable(st, name).st;
            Connect(after, reachable) == Ok(after) &&
            CreateTable(after, other).r == Err(InterfaceError)
  {
  }

  /** `create_table` that also forgets the connection it closes. */
  function CreateTableCorrected(st: State, name: string): (o: Outcome)
    ensures o.r == CreateTable(st, name).r && o.st.tables == CreateTable(st, name).st.tables
    ensures o.r.Err? && o.r.error.DuplicateTable? ==> o.st.conn.None?
  {
    var o := CreateTable(st, name);
    if o.r.Err? && o.r.error.DuplicateTable? then Outcome(o.st.(conn := None), o.r) else o
  }

  /** After the corrected DuplicateTable, reconnecting gives a working handler again. */
  lemma DuplicateThenReconnect(st: State, name: string, other: string)
    requires st.conn == Some(Connection(true)) && name in st.tables && other !in st.tables
    ensures var after := Connect(CreateTableCorrected(st, name).st, true).value;
            CreateTable(after, other) == Outcome(after.(tables := st.tables + {other}), Ok(()))
  {
  }
}
