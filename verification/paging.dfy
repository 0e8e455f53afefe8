/** Offset pagination of the two demand downloaders. Both read the row count `total` from
    a first response, plan a number of page requests from `int(total / chunk_len)`, and
    ask for page `i` at offset `i * chunk_len`. The database loader plans one page more
    than the quotient, the EIA downloader exactly the quotient; a page that starts at or
    past the end comes back empty. */
module Paging {

  import opened Base
  import Urls
  import Payloads

  /** The loader's configured page length. */
  const LoaderChunk: int := 5000

  function Abs(x: int): nat
  {
    if x < 0 then -x else x
  }

  /** `int(a / b)` on integers: true division, then truncation toward zero; a zero
      divisor raises ZeroDivisionError. Floating-point rounding of quotients beyond 2^53
      is not modelled. */
  function TruncDiv(a: int, b: int): (r: Result<int>)
    ensures r.Err? <==> b == 0
    ensures r.Err? ==> r.error == ZeroDivision
    ensures r.Ok? ==> Abs(r.value) * Abs(b) <= Abs(a) < (Abs(r.value) + 1) * Abs(b)
    ensures r.Ok? && r.value != 0 ==> (r.value < 0 <==> (a < 0) != (b < 0))
  {
    if b == 0 then Err(ZeroDivision)
    else
      var q := Abs(a) / Abs(b);
      DivisionBounds(Abs(a), Abs(b));
      Ok(if (a < 0) != (b < 0) then -q else q)
  }

  lemma DivisionBounds(x: nat, y: nat)
    requires y > 0
    ensures x / y >= 0
    ensures (x / y) * y <= x < (x / y + 1) * y
  {
    assert (x / y + 1) * y == (x / y) * y + y;
  }

  /** For a row count and a positive page length the truncation is floor division. */
  lemma TruncDivNatural(a: nat, b: nat)
    requires b > 0
    ensures TruncDiv(a, b) == Ok(a / b)
  {
  }

  /** `int(total_rows / chunk_len) + 1` of the loader. */
  function LoaderPages(total: nat, chunk: int): (r: Result<int>)
    ensures r.Err? <==> chunk == 0
    ensures chunk > 0 ==> r == Ok(total / chunk + 1)
  {
    var q :- TruncDiv(total, chunk);
    if chunk > 0 then TruncDivNatural(total, chunk); Ok(q + 1) else Ok(q + 1)
  }

  /** `int(total_rows / chunk_len)` of the EIA downloader. */
  function EiaPages(total: nat, chunk: int): (r: Result<int>)
    ensures r.Err? <==> chunk == 0
    ensures chunk > 0 ==> r == Ok(total / chunk)
  {
    if chunk > 0 then TruncDivNatural(total, chunk); TruncDiv(total, chunk) else TruncDiv(total, chunk)
  }

  /** The page count that requests every row once: the ceiling of `total / chunk`. */
  function CeilPages(total: nat, chunk: nat): (n: nat)
    requires chunk > 0
  {
    (total + chunk - 1) / chunk
  }

  /** The offsets of `for i in range(count)`, starting at `first` and advancing by `chunk`
      after every request; a negative count makes no requests. */
  function Offsets(first: int, chunk: int, count: int): (offs: seq<int>)
    ensures |offs| == if count > 0 then count else 0
    ensures first >= 0 && chunk >= 0 ==> forall k :: 0 <= k < |offs| ==> offs[k] >= first
  {
    var offs := seq(if count > 0 then count else 0, i => first + i * chunk);
    assert chunk >= 0 ==> forall k :: 0 <= k < |offs| ==> offs[k] >= first by {
      if chunk >= 0 {
        forall k | 0 <= k < |offs|
          ensures offs[k] >= first
        {
          MultiplyMonotone(0, k, chunk);
        }
      }
    }
    offs
  }

  /** With a positive page length the offsets strictly increase. */
  lemma OffsetsIncrease(first: int, chunk: int, count: int)
    requires chunk > 0
    ensures forall i, j :: 0 <= i < j < |Offsets(first, chunk, count)| ==>
              Offsets(first, chunk, count)[i] < Offsets(first, chunk, count)[j]
  {
    var offs := Offsets(first, chunk, count);
    forall i, j | 0 <= i < j < |offs|
      ensures offs[i] < offs[j]
    {
      assert offs[j] - offs[i] == (j - i) * chunk;
      assert (j - i) * chunk >= chunk by { Grows(j - i, chunk); }
    }
  }

  lemma Grows(k: int, c: int)
    requires k >= 1 && c > 0
    ensures k * c >= c
  {
  }

  // ---------------------------------------------------------------------------
  // What a page request returns.

  /** The rows a page request at `offset` of length `chunk` gets: those from `offset` up to
      the end, at most `chunk` of them. */
  function PageRows(total: nat, offset: int, chunk: nat): (n: nat)
    requires offset >= 0
    ensures n <= chunk
    ensures n == 0 <==> offset >= total || chunk == 0
  {
    if offset >= total then 0 else if chunk < total - offset then chunk else total - offset
  }

  function Min(a: int, b: int): int
  {
    if a < b then a else b
  }

  /** The rows the requests at `offs` get, added up. */
  function Served(total: nat, chunk: nat, offs: seq<int>): nat
    requires forall k :: 0 <= k < |offs| ==> offs[k] >= 0
  {
    if |offs| == 0 then 0 else PageRows(total, offs[0], chunk) + Served(total, chunk, offs[1..])
  }

  /** The pages from a row `first` on serve the rows from `first` up to `last`, the end of
      the last page, or to the end of the data: each page serves the rows up to the start
      of the next. */
  lemma {:induction false} ServedTelescopes(total: nat, chunk: nat, first: nat, n: nat, last: int)
    requires chunk > 0 && last == first + n * chunk
    ensures Served(total, chunk, Offsets(first, chunk, n)) == Min(last, total) - Min(first, total)
    decreases n
  {
    var offs := Offsets(first, chunk, n);
    if n > 0 {
      assert offs[0] == first;
      assert offs[1..] == Offsets(first + chunk, chunk, n - 1);
      MultiplyStep(n, chunk);
      ServedTelescopes(total, chunk, first + chunk, n - 1, last);
      PageSpan(total, chunk, first);
    }
  }

  lemma MultiplyStep(n: int, c: int)
    ensures n * c == (n - 1) * c + c
  {
  }

  /** One page serves the rows from its offset up to the next page's, or to the end. */
  lemma PageSpan(total: nat, chunk: nat, offset: nat)
    ensures PageRows(total, offset, chunk) == Min(offset + chunk, total) - Min(offset, total)
  {
  }

  /** The pages of a plan that starts at row 0 serve `min(n * chunk, total)` rows. */
  lemma PlanServes(total: nat, chunk: nat, n: nat)
    requires chunk > 0
    ensures Served(total, chunk, Offsets(0, chunk, n)) == Min(n * chunk, total)
  {
    ServedTelescopes(total, chunk, 0, n, n * chunk);
  }

  // ---------------------------------------------------------------------------
  // The three plans.

  /** Row `r` lies in page `r / chunk` of the plan `offs`, and that page is planned. */
  predicate RowPlanned(offs: seq<int>, chunk: nat, r: nat)
    requires chunk > 0
  {
    r / chunk < |offs| && offs[r / chunk] <= r < offs[r / chunk] + chunk
  }

  /** The loader's plan covers every row: row `r` lies in page `r / chunk`, which is
      planned, and the planned pages reach past the last row. */
  lemma LoaderCovers(total: nat, chunk: nat)
    requires chunk > 0
    ensures LoaderPages(total, chunk).Ok?
    ensures var n := LoaderPages(total, chunk).value;
            n * chunk > total &&
            Served(total, chunk, Offsets(0, chunk, n)) == total &&
            forall r :: 0 <= r < total ==> RowPlanned(Offsets(0, chunk, n), chunk, r)
  {
    var n := total / chunk + 1;
    assert n * chunk == (total / chunk) * chunk + chunk;
    PlanServes(total, chunk, n);
    var offs := Offsets(0, chunk, n);
    forall r | 0 <= r < total
      ensures RowPlanned(offs, chunk, r)
    {
      Quotients(r, total, chunk);
      assert offs[r / chunk] == (r / chunk) * chunk;
    }
  }

  lemma Quotients(r: nat, total: nat, chunk: nat)
    requires chunk > 0 && r < total
    ensures r / chunk <= total / chunk
    ensures (r / chunk) * chunk <= r < (r / chunk) * chunk + chunk
  {
    LessQuotient(r, total, chunk);
  }

  lemma LessQuotient(a: nat, b: nat, c: nat)
    requires c > 0 && a <= b
    ensures a / c <= b / c
  {
    DivisionBounds(a, c);
    DivisionBounds(b, c);
    MultiplyMonotone(b / c + 1, a / c, c);
  }

  lemma MultiplyMonotone(x: int, y: int, c: nat)
    ensures x <= y ==> x * c <= y * c
  {
  }

  /** When the page length divides the row count, the loader's last page starts exactly at
      the end of the data and so comes back empty. */
  lemma LoaderLastPageEmpty(total: nat, chunk: nat)
    requires chunk > 0 && total % chunk == 0
    ensures var offs := Offsets(0, chunk, LoaderPages(total, chunk).value);
            offs[|offs| - 1] == total && PageRows(total, offs[|offs| - 1], chunk) == 0
  {
    assert (total / chunk) * chunk == total;
  }

  /** The EIA plan serves only `total - total % chunk` rows: the rows after the last full
      page are never requested, and fewer rows than one page make no request at all. */
  lemma EiaMissesTail(total: nat, chunk: nat)
    requires chunk > 0
    ensures var n := EiaPages(total, chunk).value;
            Served(total, chunk, Offsets(0, chunk, n)) == total - total % chunk &&
            (forall k :: 0 <= k < n ==> Offsets(0, chunk, n)[k] + chunk <= total - total % chunk) &&
            (total < chunk ==> n == 0)
  {
    var n := total / chunk;
    var full := n * chunk;
    assert full == total - total % chunk;
    ServedTelescopes(total, chunk, 0, n, full);
    EiaPagesFull(chunk, n, full);
  }

  /** Every page of a plan of `n` pages ends by `n * chunk`. */
  lemma EiaPagesFull(chunk: nat, n: nat, full: int)
    requires full == n * chunk
    ensures forall k :: 0 <= k < n ==> Offsets(0, chunk, n)[k] + chunk <= full
  {
    forall k | 0 <= k < n
      ensures Offsets(0, chunk, n)[k] + chunk <= full
    {
      MultiplyStep(k + 1, chunk);
      MultiplyMonotone(k + 1, n, chunk);
    }
  }

  /** The ceiling plan serves every row once, and none of its pages is empty. */
  lemma CeilPlanExact(total: nat, chunk: nat)
    requires chunk > 0
    ensures var n := CeilPages(total, chunk);
            Served(total, chunk, Offsets(0, chunk, n)) == total &&
            forall k :: 0 <= k < n ==> PageRows(total, Offsets(0, chunk, n)[k], chunk) > 0
  {
    var n := CeilPages(total, chunk);
    CeilBounds(total, chunk);
    PlanServes(total, chunk, n);
    forall k | 0 <= k < n
      ensures Offsets(0, chunk, n)[k] < total
    {
      MultiplyMonotone(k, n - 1, chunk);
    }
  }

  /** The ceiling reaches the last row and its last page starts before it. */
  lemma CeilBounds(total: nat, chunk: nat)
    requires chunk > 0
    ensures CeilPages(total, chunk) * chunk >= total
    ensures CeilPages(total, chunk) > 0 ==> (CeilPages(total, chunk) - 1) * chunk < total
  {
    var n := CeilPages(total, chunk);
    var s := total + chunk - 1;
    assert n * chunk == s - s % chunk;
  }

  // ---------------------------------------------------------------------------
  // The loader's loop.

  /** A served page, or `None` for a failed request (`request_data` returns `None`). */
  type Fetch<T> = int -> Option<seq<Payloads.Record<T>>>

  /** The server answers every request with the rows of `PageRows`. */
  ghost predicate Faithful<T>(fetch: Fetch<T>, total: nat, chunk: nat)
  {
    forall o :: o >= 0 ==> fetch(o).Some? && |fetch(o).value| == PageRows(total, o, chunk)
  }

  /** The loop body over the planned offsets: a failed request makes `data['response']`
      raise TypeError, an empty page fails at `data_list[0]`; a duplicate insert is caught
      and the offset advances all the same, so insert outcomes do not enter. */
  function LoaderBatches<T>(offs: seq<int>, fetch: Fetch<T>): (r: Result<seq<Payloads.Batch<T>>>)
    ensures r.Ok? ==> |r.value| == |offs|
    ensures r.Ok? ==> forall k :: 0 <= k < |offs| ==> fetch(offs[k]).Some? && |fetch(offs[k]).value| > 0
  {
    if |offs| == 0 then Ok([])
    else
      match fetch(offs[0])
      case None => Err(TypeError)
      case Some(page) =>
        var b :- Payloads.DemandBatch(page);
        var rest :- LoaderBatches(offs[1..], fetch);
        assert forall k :: 1 <= k < |offs| ==> offs[k] == offs[1..][k - 1];
        Ok([b] + rest)
  }

  /** The demand branch of the loader's `main`, from the row count on. */
  function LoaderLoad<T>(total: nat, chunk: int, fetch: Fetch<T>): (r: Result<seq<Payloads.Batch<T>>>)
    ensures chunk == 0 ==> r == Err(ZeroDivision)
    ensures r.Ok? && chunk > 0 ==> |r.value| == total / chunk + 1
  {
    var n :- LoaderPages(total, chunk);
    LoaderBatches(Offsets(0, chunk, n), fetch)
  }

  /** The rows the batches insert, added up. */
  function Inserted<T>(batches: seq<Payloads.Batch<T>>): nat
  {
    if |batches| == 0 then 0 else |batches[0].rows| + Inserted(batches[1..])
  }

  /** Against a faithful server the loop fails exactly when a planned page is empty, and
      otherwise inserts every served row. */
  lemma {:induction false} FaithfulBatches<T>(offs: seq<int>, fetch: Fetch<T>, total: nat, chunk: nat)
    requires Faithful(fetch, total, chunk)
    requires forall k :: 0 <= k < |offs| ==> offs[k] >= 0
    ensures LoaderBatches(offs, fetch).Err? <==> exists k :: 0 <= k < |offs| && PageRows(total, offs[k], chunk) == 0
    ensures LoaderBatches(offs, fetch).Err? ==> LoaderBatches(offs, fetch).error == IndexError
    ensures LoaderBatches(offs, fetch).Ok? ==> Inserted(LoaderBatches(offs, fetch).value) == Served(total, chunk, offs)
    decreases |offs|
  {
    if |offs| > 0 {
      FaithfulBatches(offs[1..], fetch, total, chunk);
      assert forall k :: 1 <= k < |offs| ==> offs[k] == offs[1..][k - 1];
      var r := LoaderBatches(offs, fetch);
      if r.Ok? {
        assert r.value[1..] == LoaderBatches(offs[1..], fetch).value;
      }
    }
  }

  /** As written: when the page length divides the row count, the loader fails on its last,
      empty page, after inserting every row. */
  lemma LoaderFailsOnDivisor<T>(total: nat, chunk: nat, fetch: Fetch<T>)
    requires chunk > 0 && total % chunk == 0 && Faithful(fetch, total, chunk)
    ensures LoaderLoad(total, chunk, fetch) == Err(IndexError)
  {
    var offs := Offsets(0, chunk, LoaderPages(total, chunk).value);
    LoaderLastPageEmpty(total, chunk);
    FaithfulBatches(offs, fetch, total, chunk);
  }

  /** The loader's own page length and 10000 rows: the third request falls off the end. */
  lemma LoaderFailsAt10000<T>(fetch: Fetch<T>)
    requires Faithful(fetch, 10000, LoaderChunk)
    ensures LoaderLoad(10000, LoaderChunk, fetch) == Err(IndexError)
  {
    LoaderFailsOnDivisor(10000, 5000, fetch);
  }

  /** The loop over the ceiling plan. */
  function CorrectedLoaderLoad<T>(total: nat, chunk: nat, fetch: Fetch<T>): (r: Result<seq<Payloads.Batch<T>>>)
    requires chunk > 0
    ensures r.Ok? ==> |r.value| == CeilPages(total, chunk)
  {
    LoaderBatches(Offsets(0, chunk, CeilPages(total, chunk)), fetch)
  }

  /** Against a faithful server the ceiling plan succeeds for every row count and inserts
      every row once. */
  lemma CorrectedLoaderSucceeds<T>(total: nat, chunk: nat, fetch: Fetch<T>)
    requires chunk > 0 && Faithful(fetch, total, chunk)
    ensures CorrectedLoaderLoad(total, chunk, fetch).Ok?
    ensures Inserted(CorrectedLoaderLoad(total, chunk, fetch).value) == total
  {
    CeilPlanExact(total, chunk);
    FaithfulBatches(Offsets(0, chunk, CeilPages(total, chunk)), fetch, total, chunk);
  }

  // ---------------------------------------------------------------------------
  // The EIA downloader's loop.

  /** One page response: a failed request, a body without the expected `response.data`
      (the bare `except` prints it), or the rows of a page. */
  datatype Response<T> = Failed | Malformed | Page(rows: seq<T>)

  /** The frames the loop keeps: one per well-formed response, in request order. */
  function Collected<T>(fetch: int -> Response<T>, offs: seq<int>): (frames: seq<seq<T>>)
    ensures |frames| <= |offs|
    ensures |frames| == 0 <==> forall k :: 0 <= k < |offs| ==> !fetch(offs[k]).Page?
    ensures (forall k :: 0 <= k < |offs| ==> fetch(offs[k]).Page?) ==> |frames| == |offs|
  {
    if |offs| == 0 then []
    else
      var init := offs[..|offs| - 1];
      var rest := Collected(fetch, init);
      assert forall k :: 0 <= k < |init| ==> init[k] == offs[k];
      match fetch(offs[|offs| - 1])
      case Page(rows) => rest + [rows]
      case _ => rest
  }

  /** `os.path.join(a, b)`: `b` alone when it is absolute, else `b` after `a` with one `/`
      between unless `a` is empty or already ends in one. */
  function PathJoin(a: string, b: string): string
  {
    if |b| > 0 && b[0] == '/' then b
    else if |a| == 0 || a[|a| - 1] == '/' then a + b
    else a + "/" + b
  }

  /** `<start>-<end>.bin` in the output folder: the name always ends the path, and a start
      date that is not an absolute path keeps the folder in front. */
  function OutputFile(folder: string, start: string, end: string): (path: string)
    ensures var name := start + "-" + end + ".bin";
            |name| <= |path| && path[|path| - |name|..] == name
    ensures |start| > 0 && start[0] != '/' ==> |folder| <= |path| && path[..|folder|] == folder
  {
    var name := start + "-" + end + ".bin";
    var path := PathJoin(folder, name);
    assert |start| > 0 ==> name[0] == start[0];
    if |name| > 0 && name[0] == '/' then path
    else if |folder| == 0 || folder[|folder| - 1] == '/' then
      assert path == folder + name;
      path
    else
      assert path == folder + "/" + name;
      path
  }

  /** The EIA downloader's `main` after its probe: `probe` is the row count of the probe
      response, or `None` when it failed (then nothing else happens). Page `k` is requested
      at offset `k * chunk` whatever became of the earlier ones; the frames go to the
      output file only when there is at least one. */
  method EiaDownload<T>(probe: Option<nat>, chunk: int, fetch: int -> Response<T>,
                        start: string, end: string, key: string, folder: string)
    returns (requested: seq<int>, urls: seq<string>, frames: seq<seq<T>>, saved: Option<string>, r: Result<()>)
    ensures probe.None? ==> requested == [] && frames == [] && saved.None? && r.Ok?
    ensures probe.Some? && chunk == 0 ==> requested == [] && saved.None? && r == Err(ZeroDivision)
    ensures probe.Some? && chunk != 0 ==> r.Ok? && requested == Offsets(0, chunk, EiaPages(probe.value, chunk).value)
    ensures frames == Collected(fetch, requested)
    ensures |urls| == |requested|
    ensures forall k :: 0 <= k < |requested| ==> urls[k] == Urls.GenerateUrl(start, end, requested[k], chunk, key)
    ensures saved.Some? <==> |frames| > 0
    ensures saved.Some? ==> saved.value == OutputFile(folder, start, end)
  {
    requested, urls, frames, saved := [], [], [], None;
    if probe.None? {
      return requested, urls, frames, saved, Ok(());
    }
    var total := probe.value;
    var pages := TruncDiv(total, chunk);
    if pages.Err? {
      return requested, urls, frames, saved, Err(pages.error);
    }
    requested, frames := RequestPages(pages.value, chunk, fetch);
    urls := seq(|requested|, k requires 0 <= k < |requested| => Urls.GenerateUrl(start, end, requested[k], chunk, key));
    if |frames| > 0 {
      saved := Some(OutputFile(folder, start, end));
    }
    r := Ok(());
  }

  /** One more request adds its frame when the response is a page. */
  lemma CollectedSnoc<T>(fetch: int -> Response<T>, offs: seq<int>, o: int)
    ensures Collected(fetch, offs + [o]) ==
              Collected(fetch, offs) + (if fetch(o).Page? then [fetch(o).rows] else [])
  {
    assert (offs + [o])[..|offs|] == offs;
  }

  /** The request loop of the EIA downloader: `n` pages at offsets `0, chunk, 2 * chunk,
      ...`, keeping the frame of every well-formed response. */
  method RequestPages<T>(n: int, chunk: int, fetch: int -> Response<T>) returns (requested: seq<int>, frames: seq<seq<T>>)
    ensures requested == Offsets(0, chunk, n)
    ensures frames == Collected(fetch, requested)
  {
    requested, frames := [], [];
    ghost var offs := Offsets(0, chunk, n);
    var offset := 0;
    var i := 0;
    while i < n
      invariant 0 <= i && (n > 0 ==> i <= n) && (n <= 0 ==> i == 0)
      invariant offset == i * chunk
      invariant requested == offs[..i]
      invariant frames == Collected(fetch, requested)
    {
      assert offs[i] == offset;
      assert offs[..i + 1] == requested + [offset];
      CollectedSnoc(fetch, requested, offset);
      requested := requested + [offset];
      var resp := fetch(offset);
      if resp.Page? {
        frames := frames + [resp.rows];
      }
      MultiplyStep(i + 1, chunk);
      offset := offset + chunk;
      i := i + 1;
    }
    assert offs[..i] == offs;
  }
}
