/**
 * The TopCV scraper: up to three listing pages, one job per card that has an id and a title,
 * and the run recorded in `extract_log` with the CSV written under the raw partition.
 */
module TopcvScraper {
  import opened Wrappers
  import opened Text
  import opened ControlStore
  import opened Extraction
  import StagingLoader

  const MaxPages: nat := 3

  const SalaryDefault := "Thỏa thuận"
  const ExperienceDefault := "Không yêu cầu"
  const PostedWord := "Đăng"

  /** The columns of the written CSV, in order; they are also the keys of every job. */
  const Columns: seq<Column> := [SourceId, JobId, JobTitle, CompanyName, Salary, Location, Experience,
                                 PostedTime, Tags, JobUrl, CompanyLogo, ExtractedDate, ExtractedTimestamp]

  /** The keys of every job: the CSV columns as a set. */
  const Keys: set<Column> := {SourceId, JobId, JobTitle, CompanyName, Salary, Location, Experience,
                              PostedTime, Tags, JobUrl, CompanyLogo, ExtractedDate, ExtractedTimestamp}

  /**
   * One `.job-item-search-result` card as the browser shows it. A text field is the element's
   * text, `None` when the element is missing; a link is `None` when the element is missing and
   * otherwise the attribute, which may itself be absent. Reading `data-job-id` is the one read
   * outside an inner `try`: when it raises, the card is skipped.
   */
  datatype Card = Card(id: Result<Option<string>>, title: Option<string>, company: Option<string>,
                       salary: Option<string>, location: Option<string>, experience: Option<string>,
                       updated: Option<string>, url: Option<Option<string>>, tags: Option<seq<string>>,
                       logo: Option<Option<string>>)

  /** `raw.strip().replace(word, "").strip()`: the stripped text's pieces between the
      occurrences of the word, glued and stripped again; no white space is left at either end,
      and without the word only the stripping happens. */
  function Unlabel(raw: string, word: string): (r: string)
    requires |word| > 0
    ensures r == Strip(Join("", Split(Strip(raw), word)))
    ensures r == [] || (!IsSpace(r[0]) && !IsSpace(r[|r| - 1]))
    ensures !Contains(raw, word) ==> r == Strip(raw)
  {
    RemoveAllIsJoinSplit(Strip(raw), word);
    StripEnds(RemoveAll(Strip(raw), word));
    if Contains(raw, word) then Strip(RemoveAll(Strip(raw), word))
    else
      StripKeepsAbsent(raw, word);
      RemoveAllAbsent(Strip(raw), word);
      StripIdempotent(raw);
      Strip(RemoveAll(Strip(raw), word))
  }

  /** The text of the `.label-update` element with "Đăng" removed, or `""` without a label. */
  function PostedText(updated: Option<string>): string {
    match updated
    case None => ""
    case Some(raw) => Unlabel(raw, PostedWord)
  }

  /** The posted time is the stripped label cut at every "Đăng", its pieces glued and stripped
      again; it has no white space at either end; a label without the word "Đăng" is only
      stripped, and no label gives "". */
  lemma PostedTextSpec(updated: Option<string>)
    ensures var r := PostedText(updated);
      (r == [] || (!IsSpace(r[0]) && !IsSpace(r[|r| - 1])))
      && (updated.None? ==> r == "")
      && (updated.Some? ==> r == Strip(Join("", Split(Strip(updated.value), PostedWord))))
      && (updated.Some? && !Contains(updated.value, PostedWord) ==> r == Strip(updated.value))
  {
    match updated
    case None =>
    case Some(raw) =>
      var r := Unlabel(raw, PostedWord);
  }

  /** `[t.text.strip() for t in tags if t.text.strip()]` */
  function NonEmptyTags(tags: seq<string>): (r: seq<string>)
    ensures |r| <= |tags|
    ensures "" !in r
  {
    if |tags| == 0 then []
    else NonEmptyTags(tags[..|tags| - 1]) + KeptTag(tags[|tags| - 1])
  }

  /** One tag keeps its stripped text unless that is empty. */
  function KeptTag(t: string): (r: seq<string>)
    ensures r == [] <==> Strip(t) == ""
    ensures r != [] ==> r == [Strip(t)]
  {
    if Strip(t) == "" then [] else [Strip(t)]
  }

  /** Filtering the tags goes piece by piece: the kept tags of a concatenation are the kept
      tags of each part, in order. */
  lemma {:induction false} NonEmptyTagsConcat(a: seq<string>, b: seq<string>)
    ensures NonEmptyTags(a + b) == NonEmptyTags(a) + NonEmptyTags(b)
    decreases |b|
  {
    if |b| == 0 {
      assert a + b == a;
    } else {
      var c, t := b[..|b| - 1], b[|b| - 1];
      assert b == c + [t];
      NonEmptyTagsConcat(a, c);
      NonEmptyTagsConcatStep(a, c, t);
    }
  }

  lemma NonEmptyTagsConcatStep(a: seq<string>, c: seq<string>, t: string)
    requires NonEmptyTags(a + c) == NonEmptyTags(a) + NonEmptyTags(c)
    ensures NonEmptyTags(a + (c + [t])) == NonEmptyTags(a) + NonEmptyTags(c + [t])
  {
    AppendAssoc(a, c, [t]);
    NonEmptyTagsSnoc(a + c, t);
    NonEmptyTagsSnoc(c, t);
    AppendAssoc(NonEmptyTags(a), NonEmptyTags(c), KeptTag(t));
  }

  lemma NonEmptyTagsSnoc(s: seq<string>, t: string)
    ensures NonEmptyTags(s + [t]) == NonEmptyTags(s) + KeptTag(t)
  {
    assert (s + [t])[..|s|] == s;
  }

  /** A single tag is kept, stripped, unless it strips to nothing. */
  lemma NonEmptyTagsOne(t: string)
    ensures NonEmptyTags([t]) == (if Strip(t) == "" then [] else [Strip(t)])
  {
    assert [t][..0] == [];
  }

  /** `", ".join(tags)`, or `""` when reading the tags raised. */
  function TagText(tags: Option<seq<string>>): string {
    match tags
    case None => ""
    case Some(ts) => Join(", ", NonEmptyTags(ts))
  }

  /**
   * What the inner `try` blocks read from a card: each text stripped or its fallback, the posted
   * time cleaned, the tags joined, and the link and logo attributes or "".
   */
  datatype CardText = CardText(id: Result<Option<string>>, title: string, company: string, salary: string,
                               location: string, experience: string, posted: string, tags: string,
                               url: Option<string>, logo: Option<string>)

  function Read(card: Card): CardText {
    CardText(card.id, TextOr(card.title, ""), TextOr(card.company, ""), TextOr(card.salary, SalaryDefault),
             TextOr(card.location, ""), TextOr(card.experience, ExperienceDefault), PostedText(card.updated),
             TagText(card.tags), AttrOr(card.url), AttrOr(card.logo))
  }

  /** The value the dict puts under each key. */
  function Field(sourceId: string, date: string, stamp: string, t: CardText, c: Column): Option<string>
    requires t.id.Success?
  {
    match c
    case SourceId => Some(sourceId)
    case JobId => t.id.value
    case JobTitle => Some(t.title)
    case CompanyName => Some(t.company)
    case Salary => Some(t.salary)
    case Location => Some(t.location)
    case Experience => Some(t.experience)
    case PostedTime => Some(t.posted)
    case Tags => Some(t.tags)
    case JobUrl => t.url
    case CompanyLogo => t.logo
    case ExtractedDate => Some(date)
    case ExtractedTimestamp => Some(stamp)
    case JobType => None
  }

  /** `if j_id and j_title: all_jobs.append({...})`: the dict keyed by the CSV columns, or
      `None` when the card is skipped. */
  function JobOf(sourceId: string, date: string, stamp: string, t: CardText): Option<Job> {
    if t.id.Success? && Truthy(t.id.value) && t.title != "" then
      Some(map c | c in Keys :: Field(sourceId, date, stamp, t, c))
    else None
  }

  function Keep(sourceId: string, date: string, stamp: string): Card -> Option<Job> {
    c => JobOf(sourceId, date, stamp, Read(c))
  }

  /** What `scrape_with_pagination` returns. */
  function Scrape(site: string -> PageResult<Card>, base: string, sourceId: string, date: string,
                  stamp: string): seq<Job>
  {
    ScrapeFrom(site, Keep(sourceId, date, stamp), base, 1, MaxPages)
  }

  /** A card is kept exactly when reading its id succeeded and both id and title are non-empty. */
  lemma KeptIff(sourceId: string, date: string, stamp: string, card: Card)
    ensures JobOf(sourceId, date, stamp, Read(card)).Some?
        <==> card.id.Success? && Truthy(card.id.value) && TextOr(card.title, "") != ""
  {
  }

  /** A missing element falls back to "Thỏa thuận" for the salary, "Không yêu cầu" for the
      experience and "" for every other field; a present text is stripped. */
  lemma ReadDefaults(card: Card)
    ensures var t := Read(card);
      t.title == (if card.title.None? then "" else Strip(card.title.value))
      && t.salary == (if card.salary.None? then SalaryDefault else Strip(card.salary.value))
      && t.experience == (if card.experience.None? then ExperienceDefault else Strip(card.experience.value))
      && t.company == (if card.company.None? then "" else Strip(card.company.value))
      && t.location == (if card.location.None? then "" else Strip(card.location.value))
      && (card.tags.None? ==> t.tags == "")
      && (card.url.None? ==> t.url == Some(""))
      && (card.logo.None? ==> t.logo == Some(""))
  {
    TextOrSpec(card.title, "");
    TextOrSpec(card.salary, SalaryDefault);
    TextOrSpec(card.experience, ExperienceDefault);
    TextOrSpec(card.company, "");
    TextOrSpec(card.location, "");
  }

  /** A kept job has every CSV column (and no job type), carries the run's source id, date and
      stamp, and the card's non-empty id and title. */
  lemma JobKeys(sourceId: string, date: string, stamp: string, t: CardText)
    requires JobOf(sourceId, date, stamp, t).Some?
    ensures var j := JobOf(sourceId, date, stamp, t).value;
      (forall k :: 0 <= k < |Columns| ==> Columns[k] in j) && JobType !in j
      && j[SourceId] == Some(sourceId) && j[ExtractedDate] == Some(date) && j[ExtractedTimestamp] == Some(stamp)
      && Truthy(j[JobId]) && j[JobId] == t.id.value && j[JobTitle] == Some(t.title) && t.title != ""
  {
  }

  /** A kept job holds each text the card loop read under its own column. */
  lemma JobText(sourceId: string, date: string, stamp: string, t: CardText)
    requires JobOf(sourceId, date, stamp, t).Some?
    ensures var j := JobOf(sourceId, date, stamp, t).value;
      j[JobTitle] == Some(t.title) && j[CompanyName] == Some(t.company) && j[Salary] == Some(t.salary)
      && j[Location] == Some(t.location) && j[Experience] == Some(t.experience) && j[PostedTime] == Some(t.posted)
      && j[Tags] == Some(t.tags) && j[JobUrl] == t.url && j[CompanyLogo] == t.logo
  {
  }

  /**
   * What a kept card's dict holds, in terms of the card: the stripped title, the salary,
   * experience, company and location read with their fallbacks, and the posted time without
   * surrounding white space.
   */
  lemma JobOfCard(sourceId: string, date: string, stamp: string, card: Card)
    requires JobOf(sourceId, date, stamp, Read(card)).Some?
    ensures var j := JobOf(sourceId, date, stamp, Read(card)).value;
      j[JobTitle] == Some(Strip(card.title.value))
      && j[Salary] == Some(if card.salary.None? then SalaryDefault else Strip(card.salary.value))
      && j[Experience] == Some(if card.experience.None? then ExperienceDefault else Strip(card.experience.value))
      && j[CompanyName] == Some(if card.company.None? then "" else Strip(card.company.value))
      && j[Location] == Some(if card.location.None? then "" else Strip(card.location.value))
      && j[PostedTime] == Some(PostedText(card.updated))
  {
    JobText(sourceId, date, stamp, Read(card));
    ReadDefaults(card);
  }

  /** Every scraped job is what a kept card on a visited page became. */
  lemma ScrapedJobs(site: string -> PageResult<Card>, base: string, sourceId: string, date: string, stamp: string)
    ensures var data := Scrape(site, base, sourceId, date, stamp);
      forall j :: j in data ==> exists c :: c in Fetched(site, base, 1, MaxPages) && JobOf(sourceId, date, stamp, Read(c)) == Some(j)
  {
    ScrapeIsKept(site, Keep(sourceId, date, stamp), base, 1, MaxPages);
    KeptFrom(Keep(sourceId, date, stamp), Fetched(site, base, 1, MaxPages));
  }

  /** The written header is the full column list: every job carries every column. */
  lemma HeaderComplete(site: string -> PageResult<Card>, base: string, sourceId: string, date: string, stamp: string)
    requires |Scrape(site, base, sourceId, date, stamp)| > 0
    ensures Project(Columns, Scrape(site, base, sourceId, date, stamp)) == Columns
  {
    var data := Scrape(site, base, sourceId, date, stamp);
    ScrapedJobs(site, base, sourceId, date, stamp);
    forall i, k | 0 <= i < |data| && 0 <= k < |Columns|
      ensures Columns[k] in data[i]
    {
      assert data[i] in data;
      var c :| c in Fetched(site, base, 1, MaxPages) && JobOf(sourceId, date, stamp, Read(c)) == Some(data[i]);
      JobKeys(sourceId, date, stamp, Read(c));
    }
    ProjectSpec(Columns, data);
  }

  // ---------------------------------------------------------------------------
  // The loops

  /** The card loop of one page. */
  method ParseCards(cards: seq<Card>, sourceId: string, date: string, stamp: string) returns (jobs: seq<Job>)
    ensures jobs == Kept(Keep(sourceId, date, stamp), cards)
  {
    jobs := [];
    var i := 0;
    while i < |cards|
      invariant 0 <= i <= |cards|
      invariant jobs == Kept(Keep(sourceId, date, stamp), cards[..i])
    {
      assert cards[..i + 1][..i] == cards[..i];
      var job := JobOf(sourceId, date, stamp, Read(cards[i]));
      if job.Some? {
        jobs := jobs + [job.value];
      }
      i := i + 1;
    }
    assert cards[..|cards|] == cards;
  }

  /** `scrape_with_pagination`: pages 1, 2, ... up to `MAX_PAGES`, stopping at the first page
      without cards or whose visit raised. */
  method ScrapeWithPagination(site: string -> PageResult<Card>, base: string, sourceId: string,
                              date: string, stamp: string) returns (jobs: seq<Job>)
    ensures jobs == Scrape(site, base, sourceId, date, stamp)
  {
    var keep := Keep(sourceId, date, stamp);
    jobs := [];
    var page: nat := 1;
    while page <= MaxPages
      invariant 1 <= page <= MaxPages + 1
      invariant jobs + ScrapeFrom(site, keep, base, page, MaxPages) == ScrapeFrom(site, keep, base, 1, MaxPages)
      decreases MaxPages + 1 - page
    {
      var r := site(PageUrl(base, page));
      if r.PageError? || |r.cards| == 0 {
        ScrapeStep(site, keep, base, page, MaxPages);
        break;
      }
      var kept := ParseCards(r.cards, sourceId, date, stamp);
      ScrapeAdvance(site, keep, base, page, MaxPages, jobs, kept);
      jobs := jobs + kept;
      page := page + 1;
    }
  }

  // ---------------------------------------------------------------------------
  // main

  /**
   * `main` from the source lookup on: a missing or disabled source stops before any log row;
   * otherwise a Running row is inserted, and the run ends Failed with the driver error, or
   * after the page loop with the outcome of `SaveOutput`.
   */
  method Run(store: Store, conf: Option<SourceConfig>, sourceId: string, date: string, rawPath: string,
             site: string -> PageResult<Card>, driverError: Option<string>, stamp: string, clock: string,
             size: nat) returns (data: seq<Job>)
    requires store.Valid()
    modifies store
    ensures store.Valid()
    ensures conf.None? || !conf.value.enabled ==> store.extractLog == old(store.extractLog) && store.files == old(store.files) && data == []
    ensures conf.Some? && conf.value.enabled && driverError.Some? ==>
      store.extractLog == RunLog(old(store.extractLog), sourceId, date, ErrorPatch(driverError.value))
      && store.files == old(store.files) && data == []
    ensures conf.Some? && conf.value.enabled && driverError.None? ==>
      data == Scrape(site, conf.value.url, sourceId, date, stamp)
      && store.extractLog == RunLog(old(store.extractLog), sourceId, date,
                                   OutcomePatch(|data|, OutputPath(rawPath, sourceId, date, clock), size))
      && (|data| > 0 ==> store.files == old(store.files)[OutputPath(rawPath, sourceId, date, clock) := CsvRecords(Columns, data)])
      && (|data| == 0 ==> store.files == old(store.files))
  {
    data := [];
    if conf.None? || !conf.value.enabled {
      return;
    }
    var logId := store.BeginRun(sourceId, date);
    if driverError.Some? {
      BeginComplete(old(store.extractLog), sourceId, date, ErrorPatch(driverError.value));
      store.FailRun(logId, driverError.value);
      return;
    }
    data := ScrapeWithPagination(site, conf.value.url, sourceId, date, stamp);
    if |data| > 0 {
      HeaderComplete(site, conf.value.url, sourceId, date, stamp);
    }
    BeginComplete(old(store.extractLog), sourceId, date, OutcomePatch(|data|, OutputPath(rawPath, sourceId, date, clock), size));
    store.SaveOutput(logId, data, Columns, rawPath, sourceId, date, clock, size);
  }

  /**
   * End to end: the file a run writes is read by the staging loader as one row per scraped
   * job, each of the loader's nine columns holding that job's value.
   */
  lemma WrittenFileLoads(site: string -> PageResult<Card>, base: string, sourceId: string, date: string, stamp: string)
    requires |Scrape(site, base, sourceId, date, stamp)| > 0
    ensures var data := Scrape(site, base, sourceId, date, stamp);
      var rows := StagingLoader.Parse(CsvRecords(Project(Columns, data), data));
      |rows| == |data|
      && forall i, k :: 0 <= i < |data| && 0 <= k < |LoaderColumns| ==>
           rows[i].Column(k) == Some(Cell(data[i], LoaderColumns[k]))
  {
    var data := Scrape(site, base, sourceId, date, stamp);
    HeaderComplete(site, base, sourceId, date, stamp);
    LoaderReadsBack(Columns, data);
    assert forall k :: 0 <= k < |LoaderColumns| ==> LoaderColumns[k] in Columns;
  }
}
