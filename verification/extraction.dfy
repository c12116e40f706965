/**
 * What the two scrapers share: the page URL, the page loop's meaning, the card-text helpers,
 * the `extract_log` outcome, the output path under the raw partition and the CSV the run writes.
 *
 * The browser is an oracle `site` from a page URL to what the page shows: its job cards, or the
 * error the page visit raised. A scraped job is the Python dict the loop appends, a map from
 * column name to value (`None` where the browser returned no attribute).
 */
module Extraction {
  import opened Wrappers
  import opened Text
  import opened ControlStore
  import Calendar
  import StagingLoader

  datatype Column = SourceId | JobId | JobTitle | CompanyName | Salary | Location | Experience
                  | JobType | PostedTime | Tags | JobUrl | CompanyLogo | ExtractedDate | ExtractedTimestamp
  {
    /** The dict key, which is also the CSV header cell. */
    function Name(): string {
      match this
      case SourceId => "source_id"
      case JobId => "job_id"
      case JobTitle => "job_title"
      case CompanyName => "company_name"
      case Salary => "salary"
      case Location => "location"
      case Experience => "experience_required"
      case JobType => "job_type"
      case PostedTime => "posted_time"
      case Tags => "tags"
      case JobUrl => "job_url"
      case CompanyLogo => "company_logo"
      case ExtractedDate => "extracted_date"
      case ExtractedTimestamp => "extracted_timestamp"
    }
  }

  /** No two columns share a header name. */
  lemma NameInjective(a: Column, b: Column)
    requires a.Name() == b.Name()
    ensures a == b
  {
  }

  type Job = map<Column, Option<string>>

  /** The card list of page N once the browser has loaded it (a wait timeout is no cards), or
      the text of the exception visiting the page raised. */
  datatype PageResult<C> = Cards(cards: seq<C>) | PageError(message: string)

  /** The loop ends on this page: no cards, or the page raised. */
  predicate Stops<C>(r: PageResult<C>) {
    r.PageError? || |r.cards| == 0
  }

  // ---------------------------------------------------------------------------
  // Page URL

  /** `f"{base_url}{separator}page={current_page}"` with `&` when the base has a query. */
  function PageUrl(base: string, page: nat): string {
    base + [if Contains(base, "?") then '&' else '?'] + "page=" + NatToString(page)
  }

  /**
   * The page URL extends the base by one separator, `page=` and the decimal page number: the
   * separator is `&` exactly when the base already has a `?`, so the URL always has a query.
   */
  lemma PageUrlSpec(base: string, page: nat)
    ensures var u := PageUrl(base, page);
      |u| > |base| + 6 && u[..|base|] == base
      && (u[|base|] == '&' <==> Contains(base, "?"))
      && (u[|base|] == '?' <==> !Contains(base, "?"))
      && u[|base| + 1..|base| + 6] == "page="
      && AllDigits(u[|base| + 6..]) && ParseNat(u[|base| + 6..]) == page
      && Contains(u, "?")
  {
    var sep := if Contains(base, "?") then '&' else '?';
    var u := PageUrl(base, page);
    assert u == base + ([sep] + "page=" + NatToString(page));
    assert u[|base| + 6..] == NatToString(page);
    ParseNatToString(page);
    if Contains(base, "?") {
      ContainsExtend(base, [sep] + "page=" + NatToString(page), "?");
    } else {
      ContainsInside(base, "?", "page=" + NatToString(page));
      assert u == base + "?" + ("page=" + NatToString(page));
    }
  }

  // ---------------------------------------------------------------------------
  // The page loop

  /** The jobs the card loop appends for one page, in card order. */
  function Kept<C>(keep: C -> Option<Job>, cards: seq<C>): seq<Job> {
    if |cards| == 0 then []
    else Kept(keep, cards[..|cards| - 1])
         + (match keep(cards[|cards| - 1]) case None => [] case Some(j) => [j])
  }

  /** The card loop over two runs of cards is the two loops one after the other. */
  lemma {:induction false} KeptConcat<C>(keep: C -> Option<Job>, a: seq<C>, b: seq<C>)
    ensures Kept(keep, a + b) == Kept(keep, a) + Kept(keep, b)
    decreases |b|
  {
    if |b| > 0 {
      assert (a + b)[..|a + b| - 1] == a + b[..|b| - 1];
      KeptConcat(keep, a, b[..|b| - 1]);
    } else {
      assert a + b == a;
    }
  }

  /** Every appended job is what `keep` made of one of the cards, and no card adds two. */
  lemma {:induction false} KeptFrom<C>(keep: C -> Option<Job>, cards: seq<C>)
    ensures |Kept(keep, cards)| <= |cards|
    ensures forall j :: j in Kept(keep, cards) ==> exists c :: c in cards && keep(c) == Some(j)
  {
    if |cards| > 0 {
      var init := cards[..|cards| - 1];
      KeptFrom(keep, init);
      forall j | j in Kept(keep, cards)
        ensures exists c :: c in cards && keep(c) == Some(j)
      {
        if j in Kept(keep, init) {
          var c :| c in init && keep(c) == Some(j);
          assert c in cards;
        } else {
          assert keep(cards[|cards| - 1]) == Some(j);
        }
      }
    }
  }

  /**
   * `while current_page <= MAX_PAGES` from `page` on: a page with cards adds its kept jobs and
   * moves on; no cards or a page error ends the loop with what was gathered.
   */
  function ScrapeFrom<C>(site: string -> PageResult<C>, keep: C -> Option<Job>, base: string,
                         page: nat, maxPages: nat): seq<Job>
    decreases if page <= maxPages then maxPages + 1 - page else 0
  {
    if page > maxPages then []
    else
      var r := site(PageUrl(base, page));
      if Stops(r) then [] else Kept(keep, r.cards) + ScrapeFrom(site, keep, base, page + 1, maxPages)
  }

  /** One turn of the page loop, as the loop body takes it. */
  lemma ScrapeStep<C>(site: string -> PageResult<C>, keep: C -> Option<Job>, base: string, page: nat, maxPages: nat)
    requires page <= maxPages
    ensures var r := site(PageUrl(base, page));
      ScrapeFrom(site, keep, base, page, maxPages)
        == if Stops(r) then [] else Kept(keep, r.cards) + ScrapeFrom(site, keep, base, page + 1, maxPages)
  {
  }

  /** A turn of the page loop on a page with cards: the jobs gathered so far, followed by what
      the loop still adds, stay the same when the page's kept jobs move from the second to the first. */
  lemma ScrapeAdvance<C>(site: string -> PageResult<C>, keep: C -> Option<Job>, base: string, page: nat,
                         maxPages: nat, jobs: seq<Job>, kept: seq<Job>)
    requires page <= maxPages && !Stops(site(PageUrl(base, page)))
    requires kept == Kept(keep, site(PageUrl(base, page)).cards)
    ensures jobs + ScrapeFrom(site, keep, base, page, maxPages)
         == (jobs + kept) + ScrapeFrom(site, keep, base, page + 1, maxPages)
  {
    ScrapeStep(site, keep, base, page, maxPages);
    var rest := ScrapeFrom(site, keep, base, page + 1, maxPages);
    assert (jobs + kept) + rest == jobs + (kept + rest);
  }

  /** How many pages the loop visits from `page` on. */
  function PagesRead<C>(site: string -> PageResult<C>, base: string, page: nat, maxPages: nat): nat
    decreases if page <= maxPages then maxPages + 1 - page else 0
  {
    if page > maxPages then 0
    else if Stops(site(PageUrl(base, page))) then 1
    else 1 + PagesRead(site, base, page + 1, maxPages)
  }

  /** The cards of the visited pages, page after page. */
  function Fetched<C>(site: string -> PageResult<C>, base: string, page: nat, maxPages: nat): seq<C>
    decreases if page <= maxPages then maxPages + 1 - page else 0
  {
    if page > maxPages then []
    else
      var r := site(PageUrl(base, page));
      if Stops(r) then [] else r.cards + Fetched(site, base, page + 1, maxPages)
  }

  /**
   * Pages are visited in order from `page`, never past `maxPages`; every visited page but the
   * last had cards, and a last page before the bound had none or raised.
   */
  lemma {:induction false} PagesReadSpec<C>(site: string -> PageResult<C>, base: string, page: nat, maxPages: nat)
    ensures var k := PagesRead(site, base, page, maxPages);
      (page > maxPages ==> k == 0)
      && (page <= maxPages ==> 1 <= k <= maxPages + 1 - page)
      && (forall p :: page <= p < page + k - 1 ==> !Stops(site(PageUrl(base, p))))
      && (page <= maxPages && page + k - 1 < maxPages ==> Stops(site(PageUrl(base, page + k - 1))))
    decreases if page <= maxPages then maxPages + 1 - page else 0
  {
    if page <= maxPages && !Stops(site(PageUrl(base, page))) {
      PagesReadSpec(site, base, page + 1, maxPages);
    }
  }

  /** The result depends only on the pages visited: a site that shows the same on those pages
      gives the same jobs, whatever it shows on any later page. */
  lemma {:induction false} ScrapeReadsOnly<C>(site1: string -> PageResult<C>, site2: string -> PageResult<C>,
                                              keep: C -> Option<Job>, base: string, page: nat, maxPages: nat)
    requires forall p :: page <= p < page + PagesRead(site1, base, page, maxPages)
               ==> site1(PageUrl(base, p)) == site2(PageUrl(base, p))
    ensures ScrapeFrom(site1, keep, base, page, maxPages) == ScrapeFrom(site2, keep, base, page, maxPages)
    ensures PagesRead(site1, base, page, maxPages) == PagesRead(site2, base, page, maxPages)
    decreases if page <= maxPages then maxPages + 1 - page else 0
  {
    if page <= maxPages {
      assert site1(PageUrl(base, page)) == site2(PageUrl(base, page));
      if !Stops(site1(PageUrl(base, page))) {
        ScrapeReadsOnly(site1, site2, keep, base, page + 1, maxPages);
      }
    }
  }

  /** Output order is page order, then card order: the jobs are the card loop over the cards
      of the visited pages in sequence. */
  lemma {:induction false} ScrapeIsKept<C>(site: string -> PageResult<C>, keep: C -> Option<Job>, base: string,
                                          page: nat, maxPages: nat)
    ensures ScrapeFrom(site, keep, base, page, maxPages) == Kept(keep, Fetched(site, base, page, maxPages))
    decreases if page <= maxPages then maxPages + 1 - page else 0
  {
    if page <= maxPages {
      var r := site(PageUrl(base, page));
      if !Stops(r) {
        ScrapeIsKept(site, keep, base, page + 1, maxPages);
        KeptConcat(keep, r.cards, Fetched(site, base, page + 1, maxPages));
      }
    }
  }

  // ---------------------------------------------------------------------------
  // Reading a card

  /** `el.text.strip()`, or the fallback the `except` assigns when the element is missing. */
  function TextOr(text: Option<string>, default: string): string {
    match text
    case None => default
    case Some(t) => Strip(t)
  }

  lemma TextOrSpec(text: Option<string>, default: string)
    ensures text.None? ==> TextOr(text, default) == default
    ensures text.Some? ==> TextOr(text, default) == Strip(text.value)
  {
  }

  /** `el.get_attribute(name)` (which may give None), or `""` when the element is missing. */
  function AttrOr(attr: Option<Option<string>>): Option<string> {
    match attr
    case None => Some("")
    case Some(v) => v
  }

  /** Python truthiness of an attribute value: present and not empty. */
  predicate Truthy(v: Option<string>) {
    v.Some? && v.value != ""
  }

  // ---------------------------------------------------------------------------
  // The run's outcome in `extract_log`

  /** The source row of `extract_config`. */
  datatype SourceConfig = SourceConfig(url: string, enabled: bool)

  const NoData := "No data found"

  /** The update the run makes once the page loop is over. */
  function OutcomePatch(count: nat, path: string, size: nat): Patch {
    if count > 0 then Patch(Status.Success, Some(count), Some(path), Some(size), None)
    else Patch(Failed, None, None, None, Some(NoData))
  }

  /** The update of the global `except`: Failed with `str(e)`. */
  function ErrorPatch(message: string): Patch {
    Patch(Failed, None, None, None, Some(message))
  }

  /** The table after a run that inserted its Running row and then applied `p` to it. */
  function RunLog(log: seq<LogRow>, sourceId: string, date: string, p: Patch): seq<LogRow> {
    log + [Apply(LogRow(NextId(log), sourceId, date, Running, None, None, None, None), p)]
  }

  /**
   * A run that gathered jobs ends Success with `rows_extracted` the job count and the file's
   * path and size; a run that gathered none ends Failed with "No data found"; either way the
   * row is terminal and the table has grown by exactly that row.
   */
  lemma RunLogOutcome(log: seq<LogRow>, sourceId: string, date: string, count: nat, path: string, size: nat)
    requires ControlStore.Valid(log)
    ensures var r := RunLog(log, sourceId, date, OutcomePatch(count, path, size));
      ControlStore.Valid(r) && |r| == |log| + 1 && r[..|log|] == log
      && r[|log|].id == |log| + 1 && r[|log|].unit == sourceId && r[|log|].detail == date
      && (r[|log|].status == Status.Success <==> count > 0)
      && (r[|log|].status == Failed <==> count == 0)
      && (count > 0 ==> r[|log|].rows == Some(count) && r[|log|].path == Some(path)
                        && r[|log|].size == Some(size) && r[|log|].message == None)
      && (count == 0 ==> r[|log|].rows == None && r[|log|].path == None && r[|log|].message == Some(NoData))
  {
    var r := RunLog(log, sourceId, date, OutcomePatch(count, path, size));
    assert r[..|log|] == log;
  }

  // ---------------------------------------------------------------------------
  // Output path and file

  /**
   * `os.path.join(a, b)` on POSIX: an absolute `b` replaces `a`; otherwise a '/' goes between
   * unless `a` is empty or ends in one.
   */
  function PathJoin(a: string, b: string): string {
    if |b| > 0 && b[0] == '/' then b
    else if |a| == 0 || a[|a| - 1] == '/' then a + b
    else a + "/" + b
  }

  /** `raw_data_path/source={id}/date={date}/{id}_{HHMMSS}.csv` */
  function OutputPath(rawPath: string, sourceId: string, date: string, clock: string): string {
    PathJoin(PathJoin(PathJoin(rawPath, "source=" + sourceId), "date=" + date), sourceId + "_" + clock + ".csv")
  }

  /** With a raw directory not ending in '/', each join puts exactly one '/' in. */
  lemma OutputPathShape(rawPath: string, sourceId: string, date: string, clock: string)
    requires |rawPath| > 0 && rawPath[|rawPath| - 1] != '/'
    requires forall i :: 0 <= i < |sourceId| ==> sourceId[i] != '/'
    requires |date| > 0 && date[|date| - 1] != '/'
    ensures OutputPath(rawPath, sourceId, date, clock)
         == rawPath + "/source=" + sourceId + "/date=" + date + "/" + sourceId + "_" + clock + ".csv"
  {
    var a := PathJoin(rawPath, "source=" + sourceId);
    assert a == rawPath + "/source=" + sourceId;
    assert a[|a| - 1] != '/' by {
      if |sourceId| > 0 {
        assert a[|a| - 1] == sourceId[|sourceId| - 1];
      }
    }
    var b := PathJoin(a, "date=" + date);
    assert b == a + "/date=" + date;
    assert b[|b| - 1] == date[|date| - 1];
  }

  /** A source id that starts with '/' makes the file name absolute, and the file is written
      there, outside the raw directory. */
  lemma OutputPathAbsolute(rawPath: string, sourceId: string, date: string, clock: string)
    requires |sourceId| > 0 && sourceId[0] == '/'
    ensures OutputPath(rawPath, sourceId, date, clock) == sourceId + "_" + clock + ".csv"
  {
    var name := sourceId + "_" + clock + ".csv";
    assert name[0] == '/';
  }

  /**
   * The file a scraper writes for a date is one the staging loader's glob for that source and
   * date returns, provided the raw directory is given without a trailing '/', and neither the
   * source id nor the clock stamp holds a '/'.
   */
  lemma OutputFound(rawPath: string, sourceId: string, d: Calendar.Date, clock: string)
    requires Calendar.Valid(d)
    requires |rawPath| > 0 && rawPath[|rawPath| - 1] != '/'
    requires forall i :: 0 <= i < |sourceId| ==> sourceId[i] != '/'
    requires forall i :: 0 <= i < |clock| ==> clock[i] != '/'
    ensures StagingLoader.GlobMatch(StagingLoader.PatternPrefix(rawPath, sourceId, d), StagingLoader.PatternSuffix,
                                    OutputPath(rawPath, sourceId, Calendar.FormatDate(d), clock))
  {
    var date := Calendar.FormatDate(d);
    assert date[9] == Calendar.Pad2(d.day)[1];
    OutputPathShape(rawPath, sourceId, date, clock);
    var prefix := StagingLoader.PatternPrefix(rawPath, sourceId, d);
    var path := OutputPath(rawPath, sourceId, date, clock);
    assert path == prefix + clock + ".csv";
    assert path[..|prefix|] == prefix;
    assert path[|path| - 4..] == ".csv";
    forall i | |prefix| <= i < |path| - 4
      ensures path[i] != '/'
    {
      assert path[i] == clock[i - |prefix|];
    }
  }

  /** The canonical date text holds no '/'. */
  lemma FormatDateNoSlash(d: Calendar.Date)
    requires Calendar.Valid(d)
    ensures forall i :: 0 <= i < |Calendar.FormatDate(d)| ==> Calendar.FormatDate(d)[i] != '/'
  {
    var y, m, dd := Calendar.Pad4(d.year), Calendar.Pad2(d.month), Calendar.Pad2(d.day);
    var f := Calendar.FormatDate(d);
    assert f == y + "-" + m + "-" + dd;
    forall i | 0 <= i < |f|
      ensures f[i] != '/'
    {
      if i < 4 { assert f[i] == y[i]; }
      else if i == 4 || i == 7 { assert f[i] == '-'; }
      else if i < 7 { assert f[i] == m[i - 5]; }
      else { assert f[i] == dd[i - 8]; }
    }
  }

  /**
   * The scraper writes under the date text it was given, the staging loader looks under the
   * date rewritten as `YYYY-MM-DD`: a file the loader's glob returns for a date was written
   * under exactly that date's canonical text, so a file written under any other spelling of
   * the same date (`2024-1-5`, which `strptime` also accepts) is not found.
   */
  lemma OutputFoundOnlyCanonical(rawPath: string, sourceId: string, date: string, d: Calendar.Date, clock: string)
    requires Calendar.Valid(d)
    requires |rawPath| > 0 && rawPath[|rawPath| - 1] != '/'
    requires forall i :: 0 <= i < |sourceId| ==> sourceId[i] != '/'
    requires |date| > 0 && forall i :: 0 <= i < |date| ==> date[i] != '/'
    requires StagingLoader.GlobMatch(StagingLoader.PatternPrefix(rawPath, sourceId, d), StagingLoader.PatternSuffix,
                                     OutputPath(rawPath, sourceId, date, clock))
    ensures date == Calendar.FormatDate(d)
  {
    var f := Calendar.FormatDate(d);
    FormatDateNoSlash(d);
    OutputPathShape(rawPath, sourceId, date, clock);
    var head := rawPath + "/source=" + sourceId + "/date=";
    var path := OutputPath(rawPath, sourceId, date, clock);
    var prefix := StagingLoader.PatternPrefix(rawPath, sourceId, d);
    assert path == head + date + "/" + (sourceId + "_" + clock + ".csv");
    assert prefix == head + f + "/" + (sourceId + "_");
    SegmentDecided(head, date, f, sourceId + "_" + clock + ".csv", sourceId + "_");
  }

  /** A text that starts with another agrees with it at each of its positions. */
  lemma PrefixAgreesAt(long: string, short: string, k: int)
    ensures |short| <= |long| && long[..|short|] == short && 0 <= k < |short| ==> long[k] == short[k]
  {
    if |short| <= |long| && long[..|short|] == short && 0 <= k < |short| {
      assert long[..|short|][k] == long[k];
    }
  }

  /** When one text is a prefix of another and both go on from a shared head with a segment
      free of '/' followed by a '/', the two segments are equal. */
  lemma SegmentDecided(head: string, x: string, y: string, p: string, q: string)
    requires forall i :: 0 <= i < |x| ==> x[i] != '/'
    requires forall i :: 0 <= i < |y| ==> y[i] != '/'
    requires |head + y + "/" + q| <= |head + x + "/" + p|
    requires (head + x + "/" + p)[..|head + y + "/" + q|] == head + y + "/" + q
    ensures x == y
  {
    var long, short := head + x + "/" + p, head + y + "/" + q;
    var h := |head|;
    if |x| < |y| {
      PrefixAgreesAt(long, short, h + |x|);
      assert false;
    } else if |x| > |y| {
      PrefixAgreesAt(long, short, h + |y|);
      assert false;
    } else {
      forall i | 0 <= i < |x|
        ensures x[i] == y[i]
      {
        assert long[h + i] == x[i] && short[h + i] == y[i];
        assert long[..|short|][h + i] == short[h + i];
      }
    }
  }

  /** `[c for c in cols if c in df.columns]`: the columns some job has, in the fixed order. */
  function Project(cols: seq<Column>, data: seq<Job>): seq<Column> {
    if |cols| == 0 then []
    else Project(cols[..|cols| - 1], data)
         + (if exists i :: 0 <= i < |data| && cols[|cols| - 1] in data[i] then [cols[|cols| - 1]] else [])
  }

  /** One column is kept exactly when some job has it. */
  lemma ProjectOne(c: Column, data: seq<Job>)
    ensures Project([c], data) == (if exists i :: 0 <= i < |data| && c in data[i] then [c] else [])
  {
    assert [c][..0] == [];
  }

  lemma ProjectSnoc(cols: seq<Column>, c: Column, data: seq<Job>)
    ensures Project(cols + [c], data) == Project(cols, data) + Project([c], data)
  {
    assert (cols + [c])[..|cols|] == cols;
    ProjectOne(c, data);
  }

  /** The columns are filtered one by one, in list order: projecting two runs of columns gives
      the projections of each, concatenated. */
  lemma {:induction false} ProjectConcat(a: seq<Column>, b: seq<Column>, data: seq<Job>)
    ensures Project(a + b, data) == Project(a, data) + Project(b, data)
    decreases |b|
  {
    if |b| == 0 {
      assert a + b == a;
    } else {
      var c, t := b[..|b| - 1], b[|b| - 1];
      assert b == c + [t];
      ProjectConcat(a, c, data);
      AppendAssoc(a, c, [t]);
      ProjectSnoc(a + c, t, data);
      ProjectSnoc(c, t, data);
      AppendAssoc(Project(a, data), Project(c, data), Project([t], data));
    }
  }

  /** A projected column is one of `cols` that some job has; when every job has every column,
      nothing is dropped. */
  lemma {:induction false} ProjectSpec(cols: seq<Column>, data: seq<Job>)
    ensures forall c :: c in Project(cols, data) <==> c in cols && exists i :: 0 <= i < |data| && c in data[i]
    ensures |data| > 0 && (forall i, k :: 0 <= i < |data| && 0 <= k < |cols| ==> cols[k] in data[i])
            ==> Project(cols, data) == cols
  {
    if |cols| > 0 {
      var init := cols[..|cols| - 1];
      ProjectSpec(init, data);
      assert cols == init + [cols[|cols| - 1]];
      if |data| > 0 && (forall i, k :: 0 <= i < |data| && 0 <= k < |cols| ==> cols[k] in data[i]) {
        assert forall i, k :: 0 <= i < |data| && 0 <= k < |init| ==> init[k] in data[i] by {
          forall i, k | 0 <= i < |data| && 0 <= k < |init| ensures init[k] in data[i] {
            assert init[k] == cols[k];
          }
        }
        assert cols[|cols| - 1] in data[0];
      }
    }
  }

  /** The header row: each column's name. */
  function Names(cols: seq<Column>): (r: seq<string>)
    ensures |r| == |cols| && forall k :: 0 <= k < |cols| ==> r[k] == cols[k].Name()
  {
    seq(|cols|, k requires 0 <= k < |cols| => cols[k].Name())
  }

  /** What `to_csv` writes for a value: None (or a column the job lacks) becomes the empty field. */
  function Cell(job: Job, c: Column): string {
    if c in job then (match job[c] case None => "" case Some(v) => v) else ""
  }

  /** The record `to_csv` writes for one job under the header. */
  function JobRecord(header: seq<Column>, job: Job): (r: seq<string>)
    ensures |r| == |header|
  {
    seq(|header|, k requires 0 <= k < |header| => Cell(job, header[k]))
  }

  /** The records of the CSV file: the header, then one record per job. */
  function CsvRecords(header: seq<Column>, data: seq<Job>): (r: seq<seq<string>>)
    ensures |r| == |data| + 1 && r[0] == Names(header)
    ensures forall i :: 0 <= i < |data| ==> r[i + 1] == JobRecord(header, data[i])
  {
    [Names(header)] + seq(|data|, i requires 0 <= i < |data| => JobRecord(header, data[i]))
  }

  lemma {:induction false} NonBlankAll(records: seq<seq<string>>)
    requires forall i :: 0 <= i < |records| ==> records[i] != []
    ensures StagingLoader.NonBlank(records) == records
  {
    if |records| > 0 {
      NonBlankAll(records[..|records| - 1]);
    }
  }

  /** The scraper column behind each of the staging loader's nine columns, in its order. */
  const LoaderColumns: seq<Column> := [JobId, JobTitle, CompanyName, Salary, Location, Experience,
                                       PostedTime, JobUrl, ExtractedDate]

  lemma LoaderColumnsNamed()
    ensures |LoaderColumns| == |StagingLoader.Columns|
    ensures forall k :: 0 <= k < |LoaderColumns| ==> LoaderColumns[k].Name() == StagingLoader.Columns[k]
  {
  }

  /** The loader's reading of one written record gives the job's value under each of its
      columns the header has, and NULL under the others. */
  lemma RecordReadsBack(header: seq<Column>, job: Job, k: nat)
    requires k < |LoaderColumns|
    ensures StagingLoader.RowOf(Names(header), JobRecord(header, job)).Column(k)
         == (if LoaderColumns[k] in header then Some(Cell(job, LoaderColumns[k])) else None)
  {
    LoaderColumnsNamed();
    var c := LoaderColumns[k];
    var names := Names(header);
    var record := JobRecord(header, job);
    assert StagingLoader.RowOf(names, record).Column(k) == StagingLoader.FieldOf(names, record, c.Name());
    StagingLoader.LastCellWins(names, record, c.Name());
    if c.Name() in names {
      var j :| 0 <= j < |names| && names[j] == c.Name()
        && (forall m :: j < m < |names| ==> names[m] != c.Name())
        && StagingLoader.FieldOf(names, record, c.Name()) == (if j < |record| then Some(record[j]) else None);
      NameInjective(header[j], c);
      assert record[j] == Cell(job, header[j]);
    }
  }

  /** The loader takes the first written record as the header and every later one as a row. */
  lemma ParseWritten(header: seq<Column>, data: seq<Job>)
    requires |header| > 0
    ensures |StagingLoader.Parse(CsvRecords(header, data))| == |data|
    ensures forall i :: 0 <= i < |data| ==>
      StagingLoader.Parse(CsvRecords(header, data))[i] == StagingLoader.RowOf(Names(header), JobRecord(header, data[i]))
  {
    var body := CsvRecords(header, data)[1..];
    assert forall i :: 0 <= i < |body| ==> body[i] == JobRecord(header, data[i]);
    NonBlankAll(body);
    StagingLoader.BodyRows(Names(header), body);
  }

  /**
   * Reading the written file back the way the staging loader does gives one row per job, and
   * each of the loader's nine columns holds that job's value when the header has the column,
   * NULL when it does not.
   */
  lemma LoaderReadsBack(header: seq<Column>, data: seq<Job>)
    requires |header| > 0
    ensures |StagingLoader.Parse(CsvRecords(header, data))| == |data|
    ensures forall i, k :: 0 <= i < |data| && 0 <= k < |LoaderColumns| ==>
      StagingLoader.Parse(CsvRecords(header, data))[i].Column(k)
      == (if LoaderColumns[k] in header then Some(Cell(data[i], LoaderColumns[k])) else None)
  {
    ParseWritten(header, data);
    forall i, k | 0 <= i < |data| && 0 <= k < |LoaderColumns| {
      RecordReadsBack(header, data[i], k);
    }
  }

  // ---------------------------------------------------------------------------
  // The control table and the raw directory the run writes to

  class Store {
    var extractLog: seq<LogRow>
    /** The raw directory: each written path with the records of its CSV file. */
    var files: map<string, seq<seq<string>>>

    ghost predicate Valid()
      reads this
    {
      ControlStore.Valid(extractLog)
    }

    constructor(extractLog: seq<LogRow>, files: map<string, seq<seq<string>>>)
      requires ControlStore.Valid(extractLog)
      ensures Valid() && this.extractLog == extractLog && this.files == files
    {
      this.extractLog := extractLog;
      this.files := files;
    }

    /** `INSERT INTO extract_log ... 'Running'`, returning `cur.lastrowid`. */
    method BeginRun(sourceId: string, date: string) returns (logId: nat)
      requires Valid()
      modifies this
      ensures Valid() && logId == NextId(old(extractLog))
      ensures extractLog == Begin(old(extractLog), sourceId, date) && files == old(files)
    {
      logId := NextId(extractLog);
      extractLog := Begin(extractLog, sourceId, date);
    }

    /** The global `except`: the row is marked Failed with the error text. */
    method FailRun(logId: nat, message: string)
      requires Valid()
      modifies this
      ensures Valid() && files == old(files)
      ensures extractLog == Complete(old(extractLog), logId, ErrorPatch(message))
    {
      extractLog := Complete(extractLog, logId, ErrorPatch(message));
    }

    /**
     * After the page loop: with data, the CSV of the projected columns is written to the
     * output path and the row marked Success; without, the row is marked Failed.
     */
    method SaveOutput(logId: nat, data: seq<Job>, cols: seq<Column>, rawPath: string, sourceId: string,
                      date: string, clock: string, size: nat)
      requires Valid()
      modifies this
      ensures Valid()
      ensures extractLog == Complete(old(extractLog), logId, OutcomePatch(|data|, OutputPath(rawPath, sourceId, date, clock), size))
      ensures |data| > 0 ==> files == old(files)[OutputPath(rawPath, sourceId, date, clock) := CsvRecords(Project(cols, data), data)]
      ensures |data| == 0 ==> files == old(files)
    {
      var path := OutputPath(rawPath, sourceId, date, clock);
      if |data| > 0 {
        files := files[path := CsvRecords(Project(cols, data), data)];
      }
      extractLog := Complete(extractLog, logId, OutcomePatch(|data|, path, size));
    }
  }
}
