/**
 * The JobsGO scraper: up to fifty listing pages, salary and location taken from the card's spans,
 * experience, job type and posted time classified from its badges, one job per card that has an
 * id and a title, and the run recorded in `extract_log` with the CSV written under the raw
 * partition.
 */
module JobsgoScraper {
  import opened Wrappers
  import opened Text
  import opened ControlStore
  import opened Extraction
  import StagingLoader

  const MaxPages: nat := 50

  const SalaryDefault := "Thỏa thuận"
  const ExperienceDefault := "Không yêu cầu"

  /** The `title` attributes that classify a badge. */
  const ExperienceTitle := "Yêu cầu kinh nghiệm"
  const TypeTitle := "Loại hình"
  const PostedTitle := "Thời gian cập nhật"

  /** The columns of the written CSV, in order; they are also the keys of every job. */
  const Columns: seq<Column> := [SourceId, JobId, JobTitle, CompanyName, Salary, Location, Experience,
                                 JobType, PostedTime, JobUrl, CompanyLogo, ExtractedDate, ExtractedTimestamp]

  /** The keys of every job: the CSV columns as a set. */
  const Keys: set<Column> := {SourceId, JobId, JobTitle, CompanyName, Salary, Location, Experience,
                              JobType, PostedTime, JobUrl, CompanyLogo, ExtractedDate, ExtractedTimestamp}

  /** A `.badge` element: its `title` attribute (`None` when absent) and its text. */
  datatype Badge = Badge(title: Option<string>, text: string)

  /**
   * One `.job-card` as the browser shows it. `spans` holds the texts of the spans of the
   * `.text-primary.d-flex` element, `None` when that element is missing; each badge is read, or
   * reading its title or text raised. Reading `data-id` is the one read outside an inner `try`:
   * when it raises, the card is skipped.
   */
  datatype Card = Card(id: Result<Option<string>>, title: Option<string>, company: Option<string>,
                       spans: Option<seq<string>>, badges: seq<Result<Badge>>,
                       url: Option<Option<string>>, logo: Option<Option<string>>)

  // ---------------------------------------------------------------------------
  // Spans and badges

  /** The salary is the first span when there is one, else "Thỏa thuận". */
  function SalaryOf(spans: Option<seq<string>>): string {
    if spans.Some? && |spans.value| >= 1 then Strip(spans.value[0]) else SalaryDefault
  }

  /** The location is the third span when there are three, else "". */
  function LocationOf(spans: Option<seq<string>>): string {
    if spans.Some? && |spans.value| >= 3 then Strip(spans.value[2]) else ""
  }

  /** The badges the loop gets through: those before the first one whose reading raised. */
  function Readable(badges: seq<Result<Badge>>): seq<Badge> {
    if badges == [] || badges[0].Failure? then [] else [badges[0].value] + Readable(badges[1..])
  }

  /** The readable badges are a prefix of the badges, and the loop ends at the end of the list or
      at a badge whose reading raised. */
  lemma {:induction false} ReadableSpec(badges: seq<Result<Badge>>)
    ensures var r := Readable(badges);
      |r| <= |badges| && (forall k :: 0 <= k < |r| ==> badges[k] == Result.Success(r[k]))
      && (|r| < |badges| ==> badges[|r|].Failure?)
  {
    if badges != [] && badges[0].Success? {
      ReadableSpec(badges[1..]);
    }
  }

  /** The stripped text of the last badge titled `title`, or `default` when no badge is. */
  function LastTitled(badges: seq<Badge>, title: string, default: string): string {
    if badges == [] then default
    else if badges[|badges| - 1].title == Some(title) then Strip(badges[|badges| - 1].text)
    else LastTitled(badges[..|badges| - 1], title, default)
  }

  /** No badge with the title leaves the default. */
  lemma {:induction false} LastTitledDefault(badges: seq<Badge>, title: string, default: string)
    requires forall i :: 0 <= i < |badges| ==> badges[i].title != Some(title)
    ensures LastTitled(badges, title, default) == default
  {
    if badges != [] {
      var init := badges[..|badges| - 1];
      assert forall i :: 0 <= i < |init| ==> init[i] == badges[i];
      LastTitledDefault(init, title, default);
    }
  }

  /** A later badge with the same title overwrites an earlier one: the value is the stripped
      text of the last badge with that title. */
  lemma {:induction false} LastTitledLast(badges: seq<Badge>, title: string, default: string, k: nat)
    requires k < |badges| && badges[k].title == Some(title)
    requires forall m :: k < m < |badges| ==> badges[m].title != Some(title)
    ensures LastTitled(badges, title, default) == Strip(badges[k].text)
  {
    var n := |badges| - 1;
    var init := badges[..n];
    if k < n {
      assert badges[n].title != Some(title);
      assert LastTitled(badges, title, default) == LastTitled(init, title, default);
      assert init[k] == badges[k];
      LastTitledLast(init, title, default, k);
    }
  }

  /** The badge loop: each readable badge overwrites the value its title selects. */
  method ReadBadges(badges: seq<Result<Badge>>) returns (experience: string, kind: string, posted: string)
    ensures experience == LastTitled(Readable(badges), ExperienceTitle, ExperienceDefault)
    ensures kind == LastTitled(Readable(badges), TypeTitle, "")
    ensures posted == LastTitled(Readable(badges), PostedTitle, "")
  {
    experience, kind, posted := ExperienceDefault, "", "";
    ghost var read := Readable(badges);
    ReadableSpec(badges);
    var i := 0;
    while i < |badges|
      invariant 0 <= i <= |read|
      invariant experience == LastTitled(read[..i], ExperienceTitle, ExperienceDefault)
      invariant kind == LastTitled(read[..i], TypeTitle, "")
      invariant posted == LastTitled(read[..i], PostedTitle, "")
    {
      if badges[i].Failure? {
        break;
      }
      var b := badges[i].value;
      assert read[..i + 1][..i] == read[..i] && read[..i + 1][i] == b;
      var v := Strip(b.text);
      if b.title == Some(ExperienceTitle) {
        experience := v;
      } else if b.title == Some(TypeTitle) {
        kind := v;
      } else if b.title == Some(PostedTitle) {
        posted := v;
      }
      i := i + 1;
    }
    assert read[..i] == read;
  }

  // ---------------------------------------------------------------------------
  // One card

  /** What the inner `try` blocks read from a card. */
  datatype CardText = CardText(id: Result<Option<string>>, title: string, company: string, salary: string,
                               location: string, experience: string, kind: string, posted: string,
                               url: Option<string>, logo: Option<string>)

  function Read(card: Card): CardText {
    var read := Readable(card.badges);
    CardText(card.id, TextOr(card.title, ""), TextOr(card.company, ""), SalaryOf(card.spans),
             LocationOf(card.spans), LastTitled(read, ExperienceTitle, ExperienceDefault),
             LastTitled(read, TypeTitle, ""), LastTitled(read, PostedTitle, ""), AttrOr(card.url), AttrOr(card.logo))
  }

  /** The span block: defaults first, then the first span as salary and the third as location
      when the block has that many. */
  method ReadSpans(spans: Option<seq<string>>) returns (salary: string, location: string)
    ensures salary == SalaryOf(spans) && location == LocationOf(spans)
  {
    salary, location := SalaryDefault, "";
    if spans.Some? {
      var texts := spans.value;
      if |texts| >= 1 {
        salary := Strip(texts[0]);
      }
      if |texts| >= 3 {
        location := Strip(texts[2]);
      }
    }
  }

  /** The card body up to the keep test: title and company, the spans, the badge loop, and the
      link and logo. */
  method ReadCard(card: Card) returns (t: CardText)
    ensures t == Read(card)
  {
    var salary, location := ReadSpans(card.spans);
    var experience, kind, posted := ReadBadges(card.badges);
    t := CardText(card.id, TextOr(card.title, ""), TextOr(card.company, ""), salary, location,
                  experience, kind, posted, AttrOr(card.url), AttrOr(card.logo));
  }

  /** The value the dict puts under each key. */
  function Field(sourceId: string, date: string, stamp: string, t: CardText, c: Column): Option<string>
    requires t.id.Success?
  {
    match c
    case SourceId => Some(sourceId)
    case JobId => t.id.value
    case JobTitle => Some(t.title)
    case CompanyName => Some(t.company)
    case Salary => Some(t.salary)
    case Location => Some(t.location)
    case Experience => Some(t.experience)
    case JobType => Some(t.kind)
    case PostedTime => Some(t.posted)
    case JobUrl => t.url
    case CompanyLogo => t.logo
    case ExtractedDate => Some(date)
    case ExtractedTimestamp => Some(stamp)
    case Tags => None
  }

  /** `if j_id and j_title: all_jobs.append({...})`: the dict keyed by the CSV columns, or
      `None` when the card is skipped. */
  function JobOf(sourceId: string, date: string, stamp: string, t: CardText): Option<Job> {
    if t.id.Success? && Truthy(t.id.value) && t.title != "" then
      Some(map c | c in Keys :: Field(sourceId, date, stamp, t, c))
    else None
  }

  function Keep(sourceId: string, date: string, stamp: string): Card -> Option<Job> {
    c => JobOf(sourceId, date, stamp, Read(c))
  }

  /** What `scrape_jobsgo_pagination` returns. */
  function Scrape(site: string -> PageResult<Card>, base: string, sourceId: string, date: string,
                  stamp: string): seq<Job>
  {
    ScrapeFrom(site, Keep(sourceId, date, stamp), base, 1, MaxPages)
  }

  /** A card is kept exactly when reading its id succeeded and both id and title are non-empty. */
  lemma KeptIff(sourceId: string, date: string, stamp: string, card: Card)
    ensures JobOf(sourceId, date, stamp, Read(card)).Some?
        <==> card.id.Success? && Truthy(card.id.value) && TextOr(card.title, "") != ""
  {
  }

  /** A kept job has every CSV column (and no tags), carries the run's source id, date and
      stamp, and the card's non-empty id and title. */
  lemma JobKeys(sourceId: string, date: string, stamp: string, t: CardText)
    requires JobOf(sourceId, date, stamp, t).Some?
    ensures var j := JobOf(sourceId, date, stamp, t).value;
      (forall k :: 0 <= k < |Columns| ==> Columns[k] in j) && Tags !in j
      && j[SourceId] == Some(sourceId) && j[ExtractedDate] == Some(date) && j[ExtractedTimestamp] == Some(stamp)
      && Truthy(j[JobId]) && j[JobId] == t.id.value && j[JobTitle] == Some(t.title) && t.title != ""
  {
  }

  /** A kept job holds each text the card body read under its own column. */
  lemma JobText(sourceId: string, date: string, stamp: string, t: CardText)
    requires JobOf(sourceId, date, stamp, t).Some?
    ensures var j := JobOf(sourceId, date, stamp, t).value;
      j[CompanyName] == Some(t.company) && j[Salary] == Some(t.salary) && j[Location] == Some(t.location)
      && j[Experience] == Some(t.experience) && j[JobType] == Some(t.kind) && j[PostedTime] == Some(t.posted)
      && j[JobUrl] == t.url && j[CompanyLogo] == t.logo
  {
  }

  /**
   * What a kept card's dict holds, in terms of the card: salary from the first span and
   * location from the third, when there are that many, and experience, job type and posted time
   * from the last readable badge with the matching title, each with its default.
   */
  lemma JobOfCard(sourceId: string, date: string, stamp: string, card: Card)
    requires JobOf(sourceId, date, stamp, Read(card)).Some?
    ensures var j := JobOf(sourceId, date, stamp, Read(card)).value;
      var read := Readable(card.badges);
      j[Salary] == Some(if card.spans.Some? && |card.spans.value| >= 1 then Strip(card.spans.value[0]) else SalaryDefault)
      && j[Location] == Some(if card.spans.Some? && |card.spans.value| >= 3 then Strip(card.spans.value[2]) else "")
      && j[Experience] == Some(LastTitled(read, ExperienceTitle, ExperienceDefault))
      && j[JobType] == Some(LastTitled(read, TypeTitle, ""))
      && j[PostedTime] == Some(LastTitled(read, PostedTitle, ""))
  {
    JobText(sourceId, date, stamp, Read(card));
  }

  /** Every scraped job is what a kept card on a visited page became. */
  lemma ScrapedJobs(site: string -> PageResult<Card>, base: string, sourceId: string, date: string, stamp: string)
    ensures var data := Scrape(site, base, sourceId, date, stamp);
      forall j :: j in data ==> exists c :: c in Fetched(site, base, 1, MaxPages) && JobOf(sourceId, date, stamp, Read(c)) == Some(j)
  {
    ScrapeIsKept(site, Keep(sourceId, date, stamp), base, 1, MaxPages);
    KeptFrom(Keep(sourceId, date, stamp), Fetched(site, base, 1, MaxPages));
  }

  /** The written header is the full column list: every job carries every column. */
  lemma HeaderComplete(site: string -> PageResult<Card>, base: string, sourceId: string, date: string, stamp: string)
    requires |Scrape(site, base, sourceId, date, stamp)| > 0
    ensures Project(Columns, Scrape(site, base, sourceId, date, stamp)) == Columns
  {
    var data := Scrape(site, base, sourceId, date, stamp);
    ScrapedJobs(site, base, sourceId, date, stamp);
    forall i, k | 0 <= i < |data| && 0 <= k < |Columns|
      ensures Columns[k] in data[i]
    {
      assert data[i] in data;
      var c :| c in Fetched(site, base, 1, MaxPages) && JobOf(sourceId, date, stamp, Read(c)) == Some(data[i]);
      JobKeys(sourceId, date, stamp, Read(c));
    }
    ProjectSpec(Columns, data);
  }

  // ---------------------------------------------------------------------------
  // The loops

  /** The body of the card loop: read the card, then keep it when id and title are non-empty. */
  method ParseCard(card: Card, sourceId: string, date: string, stamp: string) returns (job: Option<Job>)
    ensures job == Keep(sourceId, date, stamp)(card)
  {
    var t := ReadCard(card);
    job := JobOf(sourceId, date, stamp, t);
  }

  /** The card loop of one page. */
  method ParseCards(cards: seq<Card>, sourceId: string, date: string, stamp: string) returns (jobs: seq<Job>)
    ensures jobs == Kept(Keep(sourceId, date, stamp), cards)
  {
    jobs := [];
    var i := 0;
    while i < |cards|
      invariant 0 <= i <= |cards|
      invariant jobs == Kept(Keep(sourceId, date, stamp), cards[..i])
    {
      assert cards[..i + 1][..i] == cards[..i];
      var job := ParseCard(cards[i], sourceId, date, stamp);
      if job.Some? {
        jobs := jobs + [job.value];
      }
      i := i + 1;
    }
    assert cards[..|cards|] == cards;
  }

  /** `scrape_jobsgo_pagination`: pages 1, 2, ... up to the bound, stopping at the first page
      without cards or whose visit raised. */
  method ScrapePagination(site: string -> PageResult<Card>, base: string, sourceId: string,
                          date: string, stamp: string) returns (jobs: seq<Job>)
    ensures jobs == Scrape(site, base, sourceId, date, stamp)
  {
    var keep := Keep(sourceId, date, stamp);
    jobs := [];
    var page: nat := 1;
    while page <= MaxPages
      invariant 1 <= page <= MaxPages + 1
      invariant jobs + ScrapeFrom(site, keep, base, page, MaxPages) == ScrapeFrom(site, keep, base, 1, MaxPages)
      decreases MaxPages + 1 - page
    {
      var r := site(PageUrl(base, page));
      if r.PageError? || |r.cards| == 0 {
        ScrapeStep(site, keep, base, page, MaxPages);
        break;
      }
      var kept := ParseCards(r.cards, sourceId, date, stamp);
      ScrapeAdvance(site, keep, base, page, MaxPages, jobs, kept);
      jobs := jobs + kept;
      page := page + 1;
    }
  }

  // ---------------------------------------------------------------------------
  // main

  /**
   * `main` from the source lookup on: a missing or disabled source stops before any log row;
   * otherwise a Running row is inserted, and the run ends Failed with the driver error, or
   * after the page loop with the outcome of `SaveOutput`.
   */
  method Run(store: Store, conf: Option<SourceConfig>, sourceId: string, date: string, rawPath: string,
             site: string -> PageResult<Card>, driverError: Option<string>, stamp: string, clock: string,
             size: nat) returns (data: seq<Job>)
    requires store.Valid()
    modifies store
    ensures store.Valid()
    ensures conf.None? || !conf.value.enabled ==> store.extractLog == old(store.extractLog) && store.files == old(store.files) && data == []
    ensures conf.Some? && conf.value.enabled && driverError.Some? ==>
      store.extractLog == RunLog(old(store.extractLog), sourceId, date, ErrorPatch(driverError.value))
      && store.files == old(store.files) && data == []
    ensures conf.Some? && conf.value.enabled && driverError.None? ==>
      data == Scrape(site, conf.value.url, sourceId, date, stamp)
      && store.extractLog == RunLog(old(store.extractLog), sourceId, date,
                                   OutcomePatch(|data|, OutputPath(rawPath, sourceId, date, clock), size))
      && (|data| > 0 ==> store.files == old(store.files)[OutputPath(rawPath, sourceId, date, clock) := CsvRecords(Columns, data)])
      && (|data| == 0 ==> store.files == old(store.files))
  {
    data := [];
    if conf.None? || !conf.value.enabled {
      return;
    }
    var logId := store.BeginRun(sourceId, date);
    if driverError.Some? {
      BeginComplete(old(store.extractLog), sourceId, date, ErrorPatch(driverError.value));
      store.FailRun(logId, driverError.value);
      return;
    }
    data := ScrapePagination(site, conf.value.url, sourceId, date, stamp);
    if |data| > 0 {
      HeaderComplete(site, conf.value.url, sourceId, date, stamp);
    }
    BeginComplete(old(store.extractLog), sourceId, date, OutcomePatch(|data|, OutputPath(rawPath, sourceId, date, clock), size));
    store.SaveOutput(logId, data, Columns, rawPath, sourceId, date, clock, size);
  }

  /**
   * End to end: the file a run writes is read by the staging loader as one row per scraped
   * job, each of the loader's nine columns holding that job's value.
   */
  lemma WrittenFileLoads(site: string -> PageResult<Card>, base: string, sourceId: string, date: string, stamp: string)
    requires |Scrape(site, base, sourceId, date, stamp)| > 0
    ensures var data := Scrape(site, base, sourceId, date, stamp);
      var rows := StagingLoader.Parse(CsvRecords(Project(Columns, data), data));
      |rows| == |data|
      && forall i, k :: 0 <= i < |data| && 0 <= k < |LoaderColumns| ==>
           rows[i].Column(k) == Some(Cell(data[i], LoaderColumns[k]))
  {
    var data := Scrape(site, base, sourceId, date, stamp);
    HeaderComplete(site, base, sourceId, date, stamp);
    LoaderReadsBack(Columns, data);
    assert forall k :: 0 <= k < |LoaderColumns| ==> LoaderColumns[k] in Columns;
  }
}
