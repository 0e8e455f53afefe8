/** Request URLs of the ingestion scripts: `construct_url` of the database loader, which
    serves three APIs, and `generate_url` of the EIA downloader. A URL is a host, `?` and
    `&`-separated `key=value` fields; the partner of each builder is reading the fields back
    from the URL it built. */
module Urls {

  import opened Base
  import Strings

  /** A value of the request parameters: the dates and the key are strings, the offset and
      the chunk length integers. */
  datatype Value = Str(s: string) | Int(i: int)

  type Params = map<string, Value>

  /** How an f-string or `format` renders a value. */
  function Render(v: Value): string
  {
    match v
    case Str(s) => s
    case Int(i) => Strings.IntToString(i)
  }

  /** `params.get(key, None)` as an f-string renders it: `None` when the key is absent. */
  function Get(params: Params, key: string): string
  {
    if key in params then Render(params[key]) else "None"
  }

  /** `host?field&field&...`. */
  function Url(host: string, fields: seq<string>): string
  {
    host + "?" + Strings.Join(fields, "&")
  }

  /** `key=value`. */
  function Field(key: string, value: string): string
  {
    key + "=" + value
  }

  const EiaHost: string := "https://" + "api.eia.gov" + "/v2/electricity" + "/rto/daily-region" + "-sub-ba-data/data/"

  /** The daily demand of sub-region ZONJ, oldest first, one page of `length` rows from
      `offset` on. */
  function DemandFields(start: string, end: string, offset: string, length: string, key: string): seq<string>
  {
    ["frequency=daily", "data[0]=value", "facets[subba][]=ZONJ", Field("start", start), Field("end", end),
     "sort[0][column]=period", "sort[0][direction]=asc", Field("offset", offset), Field("length", length),
     Field("api_key", key)]
  }

  const WeatherHistHost: string := "https://" + "archive-api" + ".open-meteo.com" + "/v1/archive"

  /** The four daily series of the archive. */
  const DailySeries: string :=
    "daily=" + "weathercode," + "temperature_2m_max," + "temperature_2m_min," + "temperature_2m_mean"

  function WeatherHistFields(start: string, end: string): seq<string>
  {
    ["latitude=52.52", "longitude=13.41", Field("start_date", start), Field("end_date", end),
     DailySeries, "timezone=America%2FNew_York"]
  }

  const WeatherLatestUrl: string :=
    "https://api.open-meteo.com/v1/forecast?latitude=52.52&longitude=13.41&hourly=temperature_2m"
    + "&daily=temperature_2m_max,temperature_2m_min&timezone=America%2FNew_York&past_days=7"

  /** `construct_url(api, params)`: any other API leaves `url` unassigned, so the final
      `return url` raises UnboundLocalError. */
  function ConstructUrl(api: string, params: Params): (r: Result<string>)
    ensures r.Err? <==> api != "demand" && api != "weather_hist" && api != "weather_latest"
    ensures r.Err? ==> r.error == UnboundLocal("url")
    ensures api == "weather_latest" ==> r == Ok(WeatherLatestUrl)
  {
    if api == "demand" then
      Ok(Url(EiaHost, DemandFields(Get(params, "start_date"), Get(params, "end_date"), Get(params, "offset"),
                                   Get(params, "chunk_len"), Get(params, "api_key"))))
    else if api == "weather_hist" then
      Ok(Url(WeatherHistHost, WeatherHistFields(Get(params, "start_date"), Get(params, "end_date"))))
    else if api == "weather_latest" then
      Ok(WeatherLatestUrl)
    else
      Err(UnboundLocal("url"))
  }

  /** The demand of every sub-region, newest first. */
  function EiaFields(start: string, end: string, offset: string, length: string, key: string): seq<string>
  {
    ["frequency=daily", "data[0]=value", Field("start", start), Field("end", end),
     "sort[0][column]=period", "sort[0][direction]=desc", Field("offset", offset), Field("length", length),
     Field("api_key", key)]
  }

  /** `generate_url(start_date, end_date, offset, chunk_len, api_key)`. */
  function GenerateUrl(start: string, end: string, offset: int, chunkLen: int, key: string): string
  {
    Url(EiaHost, EiaFields(start, end, Strings.IntToString(offset), Strings.IntToString(chunkLen), key))
  }

  // ---------------------------------------------------------------------------
  // Reading a URL back.

  /** Neither query separator. */
  predicate Plain(s: string)
  {
    '?' !in s && '&' !in s
  }

  /** The query string's fields, as a server splits it. */
  function Fields(url: string): seq<string>
  {
    var parts := Strings.Split(url, '?');
    if |parts| != 2 then [] else Strings.Split(parts[1], '&')
  }

  lemma {:induction false} JoinAvoids(parts: seq<string>, sep: string, c: char)
    requires c !in sep && forall i :: 0 <= i < |parts| ==> c !in parts[i]
    ensures c !in Strings.Join(parts, sep)
  {
    if |parts| > 1 {
      JoinAvoids(parts[1..], sep, c);
    }
  }

  /** Splitting a URL whose host and fields are plain gives back the fields. */
  lemma UrlFields(host: string, fields: seq<string>)
    requires '?' !in host && |fields| >= 1
    requires forall i :: 0 <= i < |fields| ==> Plain(fields[i])
    ensures Strings.Split(Url(host, fields), '?') == [host, Strings.Join(fields, "&")]
    ensures Fields(Url(host, fields)) == fields
  {
    UrlSplit(host, fields);
    Strings.SplitJoin(fields, '&');
  }

  lemma UrlSplit(host: string, fields: seq<string>)
    requires '?' !in host
    requires forall i :: 0 <= i < |fields| ==> Plain(fields[i])
    ensures Strings.Split(Url(host, fields), '?') == [host, Strings.Join(fields, "&")]
  {
    var q := Strings.Join(fields, "&");
    JoinAvoids(fields, "&", '?');
    Strings.SplitAtSeparator(host, '?', q);
    Strings.SplitWithoutSeparator(q, '?');
    assert Url(host, fields) == host + ['?'] + q;
  }

  lemma IntToStringPlain(i: int)
    ensures Plain(Strings.IntToString(i))
  {
    var r := Strings.IntToString(i);
    if i < 0 {
      assert r == "-" + Strings.NatToString(-i);
    }
  }

  // The fixed fields of the three URLs hold no `?` or `&`. Each literal group has its own
  // lemma: character membership in string literals is costly for the solver, and one lemma
  // for all of them exceeds its resource limit.

  lemma FrequencyPlain()
    ensures Plain("frequency=daily") && Plain("data[0]=value")
  {
  }

  lemma SortColumnPlain()
    ensures Plain("sort[0][column]=period")
  {
  }

  lemma FacetPlain()
    ensures Plain("facets[subba][]=ZONJ")
  {
  }

  lemma AscendingPlain()
    ensures Plain("sort[0][direction]=asc")
  {
  }

  lemma DescendingPlain()
    ensures Plain("sort[0][direction]=desc")
  {
  }

  lemma KeysPlain()
    ensures Plain("start") && Plain("end") && Plain("offset") && Plain("length") && Plain("api_key")
  {
  }

  lemma DateKeysPlain()
    ensures Plain("start_date") && Plain("end_date")
  {
  }

  lemma CoordinatesPlain()
    ensures Plain("latitude=52.52") && Plain("longitude=13.41")
  {
  }

  lemma TimezonePlain()
    ensures Plain("timezone=America%2FNew_York")
  {
  }

  lemma EiaHostPlain()
    ensures '?' !in EiaHost
  {
    assert '?' !in "https://" && '?' !in "api.eia.gov" && '?' !in "/v2/electricity";
    assert '?' !in "/rto/daily-region" && '?' !in "-sub-ba-data/data/";
  }

  lemma FieldPlain(key: string, value: string)
    requires Plain(key) && Plain(value)
    ensures Plain(Field(key, value))
  {
  }

  lemma DemandFieldsPlain(start: string, end: string, offset: string, length: string, key: string)
    requires Plain(start) && Plain(end) && Plain(offset) && Plain(length) && Plain(key)
    ensures forall i :: 0 <= i < |DemandFields(start, end, offset, length, key)| ==>
              Plain(DemandFields(start, end, offset, length, key)[i])
  {
    FrequencyPlain();
    SortColumnPlain();
    FacetPlain();
    AscendingPlain();
    KeysPlain();
    FieldPlain("start", start);
    FieldPlain("end", end);
    FieldPlain("offset", offset);
    FieldPlain("length", length);
    FieldPlain("api_key", key);
  }

  /** Read back, the demand URL of `construct_url` is exactly its ten fields, in order: the
      caller's dates, offset, page length and key, sub-region ZONJ and ascending order. */
  lemma DemandUrlFields(params: Params)
    requires Plain(Get(params, "start_date")) && Plain(Get(params, "end_date")) && Plain(Get(params, "offset"))
    requires Plain(Get(params, "chunk_len")) && Plain(Get(params, "api_key"))
    ensures Fields(ConstructUrl("demand", params).value) ==
              DemandFields(Get(params, "start_date"), Get(params, "end_date"), Get(params, "offset"),
                           Get(params, "chunk_len"), Get(params, "api_key"))
  {
    var s, e, o, l, k := Get(params, "start_date"), Get(params, "end_date"), Get(params, "offset"),
                         Get(params, "chunk_len"), Get(params, "api_key");
    DemandFieldsPlain(s, e, o, l, k);
    EiaHostPlain();
    UrlFields(EiaHost, DemandFields(s, e, o, l, k));
  }

  lemma DailySeriesPlain()
    ensures Plain(DailySeries)
  {
    assert Plain("daily=") && Plain("weathercode,") && Plain("temperature_2m_max,");
    assert Plain("temperature_2m_min,") && Plain("temperature_2m_mean");
  }

  lemma WeatherHistHostPlain()
    ensures '?' !in WeatherHistHost
  {
    assert '?' !in "https://" && '?' !in "archive-api" && '?' !in ".open-meteo.com" && '?' !in "/v1/archive";
  }

  /** Read back, the archive URL of `construct_url` is exactly its six fields: the fixed
      coordinates, series and time zone around the caller's two dates. */
  lemma WeatherHistUrlFields(params: Params)
    requires Plain(Get(params, "start_date")) && Plain(Get(params, "end_date"))
    ensures Fields(ConstructUrl("weather_hist", params).value) ==
              WeatherHistFields(Get(params, "start_date"), Get(params, "end_date"))
  {
    var s, e := Get(params, "start_date"), Get(params, "end_date");
    CoordinatesPlain();
    TimezonePlain();
    DateKeysPlain();
    DailySeriesPlain();
    FieldPlain("start_date", s);
    FieldPlain("end_date", e);
    WeatherHistHostPlain();
    UrlFields(WeatherHistHost, WeatherHistFields(s, e));
  }

  lemma EiaFieldsPlain(start: string, end: string, offset: string, length: string, key: string)
    requires Plain(start) && Plain(end) && Plain(offset) && Plain(length) && Plain(key)
    ensures forall i :: 0 <= i < |EiaFields(start, end, offset, length, key)| ==>
              Plain(EiaFields(start, end, offset, length, key)[i])
  {
    FrequencyPlain();
    SortColumnPlain();
    DescendingPlain();
    KeysPlain();
    FieldPlain("start", start);
    FieldPlain("end", end);
    FieldPlain("offset", offset);
    FieldPlain("length", length);
    FieldPlain("api_key", key);
  }

  /** Read back, the URL of `generate_url` is exactly its nine fields (every sub-region,
      newest first), and the offset and page length parse back to the integers given. */
  lemma GenerateUrlFields(start: string, end: string, offset: int, chunkLen: int, key: string)
    requires Plain(start) && Plain(end) && Plain(key)
    ensures Fields(GenerateUrl(start, end, offset, chunkLen, key)) ==
              EiaFields(start, end, Strings.IntToString(offset), Strings.IntToString(chunkLen), key)
    ensures Strings.ParseInt(Fields(GenerateUrl(start, end, offset, chunkLen, key))[6][7..]) == Some(offset)
    ensures Strings.ParseInt(Fields(GenerateUrl(start, end, offset, chunkLen, key))[7][7..]) == Some(chunkLen)
  {
    var o, l := Strings.IntToString(offset), Strings.IntToString(chunkLen);
    IntToStringPlain(offset);
    IntToStringPlain(chunkLen);
    EiaFieldsPlain(start, end, o, l, key);
    EiaHostPlain();
    UrlFields(EiaHost, EiaFields(start, end, o, l, key));
    assert Field("offset", o)[7..] == o;
    assert Field("length", l)[7..] == l;
    Strings.IntToStringRoundTrip(offset);
    Strings.IntToStringRoundTrip(chunkLen);
  }
}
