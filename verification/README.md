# Job-posting ETL pipeline, modelled in Dafny

The system gathers IT job postings from two Vietnamese job boards and moves them through a small warehouse in four stages.

* **Extraction.** Two scrapers, one for TopCV and one for JobsGO, page through a board with a `page=` query parameter. They read each job card into a record of thirteen named columns and keep only the cards that have an id and a title. They write the kept records to a CSV file under `raw_data_path/source=<id>/date=<date>/`. Each run is recorded in the `extract_log` control table. A run starts as `Running` and ends as `Success`, with row count, path and size, or as `Failed`, with a message.
* **Staging load.** The loader truncates the `temp_jobs` staging table and globs the CSV files of one source and date. It loads each file into the table and records each file in `load_log`, first as `RUNNING` and then as `SUCCESS` or `FAILED`.
* **Staging transform.** The transformer finds or creates its process entry and logs a `Running` row. It builds a lookup from ISO date text to the date dimension's surrogate key. It then converts each staging row and upserts it into the `jobs` table: a job id already present has its title, salary, posted time and date key refreshed. The salary and posted-time rules (`clean_salary`, `calc_posted_date`) are modelled as well.
* **Datamart load.** The datamart loader runs one aggregation query per configured table, then drops, recreates and fills each datamart table. It appends `Start`/`Success`/`Fail` rows to a table log and a config log.

## Layout

* `wrappers.dfy`: `Option` and `Result`.
* `text.dfy` (`Text`): the Python string operations the core relies on, each written out explicitly. These are `in`, `strip`, `lower`, `split`/`join`, `replace(x, "")`, `re.findall(r'\d+')` and `int()` on digit strings.
* `calendar.dfy` (`Calendar`): proleptic Gregorian dates, with `strftime('%Y-%m-%d')`, `strptime` and subtraction of days.
* `control_store.dfy` (`ControlStore`): the shared control log, whose rows start `Running` and are patched to a terminal status.
* `transform_rules.dfy` (`TransformRules`): `clean_salary` and `calc_posted_date`.
* `staging_transformer.dfy` (`StagingTransformer`): the `Transformer` class and the functions that specify it.
* `staging_loader.dfy` (`StagingLoader`): the `Loader` class, CSV-row reading and the per-file log.
* `datamart.dfy` (`Datamart`): SQL text generation and the `Loader` class of the datamart stage.
* `extraction.dfy` (`Extraction`): what both scrapers share:
  * the page URL;
  * the pagination loop as a function of a page oracle;
  * column projection;
  * the CSV file as records;
  * the `Store` class holding the extract log and the written files.
* `topcv.dfy` (`TopcvScraper`) and `jobsgo.dfy` (`JobsgoScraper`): the two scrapers.

The browser is a function from page URL to page result. A page is either a list of cards or an error that ends the loop. The loader's file system is the list of files the glob returned. Database queries that the core does not compute become inputs, and clock values become parameters. Examples of such query inputs are the datamart aggregation result, the date dimension and the process config.

## Model

| member | source | states |
|---|---|---|
| Calendar.MinusDays | staging/staging_transformer_v2.py:73 | subtracting n days succeeds exactly when the result stays at or after 0001-01-01, and the result is a valid date n days earlier on the day count |
| Calendar.PrevDay | staging/staging_transformer_v2.py:73 | the day before is a valid date one day earlier, and it is missing only for 0001-01-01 |
| Calendar.ParseFormatDate | staging/staging_transformer_v2.py:72 | `strptime('%Y-%m-%d')` reads back exactly the date that `strftime` wrote |
| Calendar.OrdinalInjective | staging/staging_transformer_v2.py:71-75 | two valid dates with the same day count are the same date |
| ControlStore.Begin | staging/staging_loader.py:38-41 | starting a run appends one `Running` row with the next id and keeps the earlier rows and the log's validity |
| ControlStore.Complete | staging/staging_loader.py:42-44 | finishing a run patches only the row with that id, gives it a terminal status, leaves every other row unchanged and keeps the log valid |
| ControlStore.CompleteOne | staging/staging_loader.py:42-44 | on a valid log, completion is an update of the row at position id-1, and an unknown id changes nothing |
| ControlStore.BeginComplete | staging/staging_loader.py:67-91 | beginning and then completing the new id appends one patched row and changes nothing else |
| TransformRules.CleanSalary | staging/staging_transformer_v2.py:53-62 | salaries are non-negative multiples of one million, an empty or negotiable text gives (0, 0), and a non-zero minimum is the first number found times one million |
| TransformRules.UpToForm | staging/staging_transformer_v2.py:57-59 | every text "word n unit" whose word starts with "tới" is cleaned to (0, n million) |
| TransformRules.AboveForm | staging/staging_transformer_v2.py:57-60 | every text "word n unit" whose word starts with "trên" is cleaned to (n million, 0) |
| TransformRules.RangeForm | staging/staging_transformer_v2.py:57-61 | every text "n sep m unit" is cleaned to (n million, m million) |
| TransformRules.CleanSalaryNegotiable | staging/staging_transformer_v2.py:55-56 | any text containing "Thỏa thuận" is cleaned to (0, 0) |
| TransformRules.CleanSalaryUpTo | staging/staging_transformer_v2.py:59 | "Tới n triệu" is cleaned to (0, n million) for every n |
| TransformRules.CleanSalaryAbove | staging/staging_transformer_v2.py:60 | "Trên n triệu" is cleaned to (n million, 0) for every n |
| TransformRules.CleanSalaryRange | staging/staging_transformer_v2.py:61 | "n - m triệu" is cleaned to (n million, m million) for every n and m |
| TransformRules.Delta | staging/staging_transformer_v2.py:65-69 | a text with none of the three phrases gives 0 days, and failure happens only for a matched phrase with no number, carrying Python's index error |
| TransformRules.CalcPostedDate | staging/staging_transformer_v2.py:64-75 | a missing text fails, a date is produced exactly delta days before the extracted date, an unparsable extracted date gives None, and a result before year 1 gives None |
| TransformRules.PostedForm | staging/staging_transformer_v2.py:71-73 | for a well-formed extracted date, the posted date is that date minus the text's delta |
| TransformRules.PostedDaysAgo | staging/staging_transformer_v2.py:68 | "n ngày trước" gives the extracted date minus n days |
| TransformRules.PostedWeeksAgo | staging/staging_transformer_v2.py:69 | "n tuần trước" gives the extracted date minus 7n days |
| TransformRules.PostedYesterday | staging/staging_transformer_v2.py:67 | "Hôm qua" gives the extracted date minus one day |
| TransformRules.PostedUnrecognized | staging/staging_transformer_v2.py:71-75 | a text with none of the phrases gives the extracted date itself |
| StagingTransformer.Refresh | staging/staging_transformer_v2.py:139-143 | a duplicate job id takes title, salary, posted time and date key from the new row and keeps every other column of the stored row |
| StagingTransformer.UpsertAllAt | staging/staging_transformer_v2.py:134-151 | after the upserts, a key no entry names is unchanged, and a named key holds the refreshed row built from the last entry with that key over the stored row, or over the first entry when the key was new |
| StagingTransformer.UpsertAllIdempotent | staging/staging_transformer_v2.py:134-151 | applying the same upserts twice gives the same table as once |
| StagingTransformer.LookupLastWins | staging/staging_transformer_v2.py:83-85 | a dimension date maps to the surrogate key of its last row |
| StagingTransformer.LookupKeeps | staging/staging_transformer_v2.py:83-85 | a key that no dimension row formats to keeps its earlier entry or stays absent |
| StagingTransformer.LookupCovered | staging/staging_transformer_v2.py:83-85 | every dimension date is in the lookup, whatever the lookup held before |
| StagingTransformer.LookupIdempotent | staging/staging_transformer_v2.py:77-86 | loading the date lookup twice gives the same lookup as once |
| StagingTransformer.TransformSpec | staging/staging_transformer_v2.py:119-151 | a row fails exactly when its posted date cannot be computed or its job id is null; on success the key is the job id; title, company, raw salary, location, experience, url and extracted date are copied; the date key comes from the lookup when present; and a posted date is stored exactly when one was computed, the computed delta before the extracted date |
| StagingTransformer.DateIdFromDimension | staging/staging_transformer_v2.py:125-130 | a row whose extracted date is a dimension date gets that date's surrogate key |
| StagingTransformer.PrepareSpec | staging/staging_transformer_v2.py:117-152 | conversion stops at the first failing row: every earlier row converts, and the error is that row's error |
| StagingTransformer.PrepareStops | staging/staging_transformer_v2.py:117-152 | once a prefix has failed, the rows after it change nothing |
| StagingTransformer.RerunIdempotent | staging/staging_transformer_v2.py:88-166 | running the transform a second time over the same staging rows leaves the jobs table unchanged |
| StagingTransformer.FindProcess | staging/staging_transformer_v2.py:39-44 | the process id is the 1-based position of the first config entry with the name, and None means no entry has it |
| StagingTransformer.ClosingPatch | staging/staging_transformer_v2.py:154-164 | every patch that closes a run has a terminal status |
| StagingTransformer.RunLogRowStatus | staging/staging_transformer_v2.py:99-166 | the run's log row is `Success` with "Loaded n rows" exactly when rows were loaded, stays `Running` exactly when the staging table was empty, and carries the error message when the run failed |
| StagingTransformer.Transformer.LoadDateLookup | staging/staging_transformer_v2.py:77-86 | the lookup becomes the old lookup overwritten by every dimension row in order, and nothing else changes |
| StagingTransformer.Transformer.GetProcessId | staging/staging_transformer_v2.py:30-51 | the returned id names the transformer's config entry; the first existing entry is reused, otherwise one entry is appended and its id returned |
| StagingTransformer.Transformer.LogStart | staging/staging_transformer_v2.py:99-104 | a `Running` row for the process id is appended unless the insert fails |
| StagingTransformer.Transformer.UpsertOne | staging/staging_transformer_v2.py:118-152 | a failing row leaves the jobs table unchanged and reports its error, and a converted row is upserted |
| StagingTransformer.Transformer.UpsertRows | staging/staging_transformer_v2.py:117-153 | the jobs table receives the upserts of the rows before the first failure, and the count is all rows when none fails |
| StagingTransformer.Transformer.Run | staging/staging_transformer_v2.py:88-166 | the lookup is reloaded, the process configuration gains an entry only when none was found, the jobs table receives the upserts of the converted prefix, and exactly one log row, under the id of the first configured entry or of the added one, describes the outcome |
| StagingLoader.BasenameTail | staging/staging_loader.py:68 | the file name is the slash-free tail of the path, preceded by a slash when shorter than the path |
| StagingLoader.LastCellWins | staging/staging_loader.py:75-79 | with duplicate header names, a row's field comes from the last column with that name; a missing name or a short row gives None |
| StagingLoader.NonBlank | staging/staging_loader.py:72-79 | the records kept as data rows are non-empty records of the file |
| StagingLoader.BodyRows | staging/staging_loader.py:72-79 | there is one staging row per non-blank record, each read against the header |
| StagingLoader.StandardHeader | staging/staging_loader.py:73-79 | under the standard header, every staging column takes the cell at its own position |
| StagingLoader.ParseRows | staging/staging_loader.py:71-79 | the reading loop produces exactly the rows of the file's specification |
| StagingLoader.FilePatchAgrees | staging/staging_loader.py:84-90 | a loaded file is closed `SUCCESS` with its row count; an unreadable file is closed `FAILED` with 0 rows and its error and contributes no rows |
| StagingLoader.FileLogAgrees | staging/staging_loader.py:67-91 | each file's log row is named by the file's base name and path and is terminal, with the row count when successful |
| StagingLoader.FailedFileIsolated | staging/staging_loader.py:67-91 | a failed file contributes nothing: the staging table equals the one loaded without that file |
| StagingLoader.LoadedCount | staging/staging_loader.py:67-91 | the staging table holds exactly as many rows as the load log reports |
| StagingLoader.Loader.LogRunning | staging/staging_loader.py:35-41 | a `RUNNING` row for the file is appended and its id returned |
| StagingLoader.Loader.LogTerminal | staging/staging_loader.py:42-44 | the current file's row is patched to its terminal status |
| StagingLoader.Loader.ReadAndInsert | staging/staging_loader.py:71-85 | the file's rows are appended to the staging table and its closing patch is returned |
| StagingLoader.Loader.LoadFile | staging/staging_loader.py:67-91 | one file appends exactly its log row and its rows |
| StagingLoader.Loader.Run | staging/staging_loader.py:48-91 | the staging table is truncated and then holds the rows of all loaded files in order, one log row is appended per file, and the glob pattern names the source and date |
| Datamart.MetricNameSpec | datamart/load_to_dm.py:142 | a metric's column name is a suffix of the metric after the last " AS " split point and contains no " AS "; a metric without " AS " is its own name |
| Datamart.MetricColumnsForm | datamart/load_to_dm.py:129-131 | the metric column list is one INT line per metric, joined by newlines |
| Datamart.CreateColumns | datamart/load_to_dm.py:133-138 | a created table has the group-by column as `VARCHAR(255)` first, then one `INT` column per metric, named by its alias, in metric order |
| Datamart.MetricBlockDeclares | datamart/load_to_dm.py:129-131 | the metric block of the CREATE statement declares the metric columns one per line, every line but the last ending in a comma |
| Datamart.CreateDeclaresColumns | datamart/load_to_dm.py:133-138 | the CREATE statement declares exactly the created columns, in order: the group-by column, then the metric columns |
| Datamart.PlaceholderForm | datamart/load_to_dm.py:144 | the placeholder list has one `%s` for the group-by column and one per metric |
| Datamart.InsertMatchesCreate | datamart/load_to_dm.py:142-144 | the INSERT column list names exactly the columns the CREATE declares, in order |
| Datamart.RowTuple | datamart/load_to_dm.py:153 | a result row gives a tuple exactly when it has the group-by column and every metric, and the tuple lists them in order |
| Datamart.TuplesSpec | datamart/load_to_dm.py:151-154 | the insert data exists exactly when every result row gives a tuple, and then it lists one tuple per row in order |
| Datamart.Loader.BuildTuples | datamart/load_to_dm.py:151-154 | the tuple loop builds exactly the insert data of TuplesSpec, or stops with none at the first row missing a column |
| Datamart.TuplesStops | datamart/load_to_dm.py:151-154 | a row without its columns makes the whole insert fail |
| Datamart.TableEffectSpec | datamart/load_to_dm.py:127-157 | a table job changes only its own table, a failed query or DROP changes nothing, a successful one replaces it with the created columns and the result rows (an empty result succeeds even when the insert would fail, since nothing is sent), and a failure after the drop leaves it absent or empty |
| Datamart.TableLogShape | datamart/load_to_dm.py:113-168 | each table writes a `Start` row and then exactly one `Success` or `Fail` row, in job order |
| Datamart.LastJobDecides | datamart/load_to_dm.py:104-168 | when the last job naming a table that gets past the DROP succeeds, the table ends holding exactly that job's rows under its created columns; later jobs whose query or DROP fails do not touch it |
| Datamart.LastFailedJobDecides | datamart/load_to_dm.py:104-168 | when the last job naming a table that gets past the DROP fails, the table ends absent if its CREATE failed and empty under the created columns otherwise |
| Datamart.UnnamedTableKept | datamart/load_to_dm.py:104-168 | a table no job names is untouched |
| Datamart.Loader.LogConfig | datamart/load_to_dm.py:68-75 | one config-log row is appended |
| Datamart.Loader.LogTable | datamart/load_to_dm.py:77-84 | one table-log row is appended |
| Datamart.Loader.LoadTable | datamart/load_to_dm.py:116-157 | the datamart changes by the table job's effect, and the result says whether every statement sent succeeded; an insert of no rows sends nothing and cannot fail |
| Datamart.Loader.ProcessTable | datamart/load_to_dm.py:111-168 | one table job logs `Start` and its status and applies its effect |
| Datamart.Loader.Run | datamart/load_to_dm.py:90-177 | a failed connection logs `Start`/`Fail` and touches nothing else; otherwise every table job runs in order and the config log ends `Success` |
| Extraction.PageUrlSpec | extract/topcv_scraper_v5.py:71-72 | the page URL is the base, then `&` if the base has a `?` and `?` otherwise, then `page=` and the decimal page number, which parses back to the page |
| Extraction.KeptConcat | extract/topcv_scraper_v5.py:97-133 | filtering cards distributes over concatenation |
| Extraction.KeptFrom | extract/topcv_scraper_v5.py:97-133 | no more jobs than cards are kept, and each kept job comes from one card |
| Extraction.PagesReadSpec | extract/topcv_scraper_v5.py:69-140 | at most MAX_PAGES pages are read, every page before the last one read had cards, and an early stop comes from an empty or failing page |
| Extraction.ScrapeReadsOnly | extract/topcv_scraper_v5.py:61-142 | the scrape depends only on the pages it reads |
| Extraction.ScrapeIsKept | extract/topcv_scraper_v5.py:61-142 | the scraped jobs are the kept cards of all pages read, in order |
| Extraction.RunLogOutcome | extract/topcv_scraper_v5.py:184-223 | a run appends one row: `Success` with count, path and size when data was scraped, and `Failed` with "No data found" otherwise |
| Extraction.OutputPathShape | extract/topcv_scraper_v5.py:198-202 | the CSV path is `raw/source=<id>/date=<date>/<id>_<clock>.csv` |
| Extraction.OutputPathAbsolute | extract/topcv_scraper_v5.py:198-202 | a source id starting with '/' makes the file name absolute, and `os.path.join` then writes the file there, outside the raw directory |
| Extraction.OutputFound | extract/topcv_scraper_v5.py:198-202 | the file an extractor writes under a date's canonical `YYYY-MM-DD` text matches the staging loader's glob for the same source and date |
| Extraction.OutputFoundOnlyCanonical | staging/staging_loader.py:50-57 | the loader's glob for a date returns an extractor's file only when the extractor's date text is exactly that date's `YYYY-MM-DD` text, so another spelling such as `2024-1-5` is missed |
| Extraction.ProjectSpec | extract/topcv_scraper_v5.py:206-207 | the written header keeps exactly the listed columns present in some record, and all of them, in list order, when every record has every column |
| Extraction.ProjectOne | extract/topcv_scraper_v5.py:207 | one column is kept exactly when some record has it |
| Extraction.ProjectConcat | extract/topcv_scraper_v5.py:207 | the columns are filtered one by one in list order: projecting two runs of columns gives the projections of each, concatenated |
| Extraction.RecordReadsBack | staging/staging_loader.py:72-79 | a written record read back under its header gives each staging column the job's cell, or None when the column was not written |
| Extraction.LoaderReadsBack | staging/staging_loader.py:72-79 | a whole written file reads back as one staging row per job with the same cells |
| Extraction.Store.BeginRun | extract/topcv_scraper_v5.py:184-186 | a `Running` extract-log row is appended and its id returned |
| Extraction.Store.FailRun | extract/topcv_scraper_v5.py:225-231 | the run's row is closed `Failed` with the error and no file is written |
| Extraction.Store.SaveOutput | extract/topcv_scraper_v5.py:196-223 | with data, the CSV is written at the output path and the run closes `Success`; without data, no file is written and the run closes `Failed` |
| TopcvScraper.Unlabel | extract/topcv_scraper_v5.py:111-112 | removing a word from a stripped label and stripping again gives the pieces of the stripped label between the occurrences of the word, glued and stripped; no space is left at either end, and a label without the word is just stripped |
| TopcvScraper.PostedTextSpec | extract/topcv_scraper_v5.py:110-113 | a missing label gives ""; otherwise the posted time is the stripped label cut at every "Đăng", glued back and stripped, with no space at either end, and a label without "Đăng" is only stripped |
| TopcvScraper.NonEmptyTags | extract/topcv_scraper_v5.py:117 | the kept tags are non-empty and no more than the tags found |
| TopcvScraper.NonEmptyTagsOne | extract/topcv_scraper_v5.py:117 | a single tag is kept, stripped, exactly when its stripped text is not empty |
| TopcvScraper.NonEmptyTagsConcat | extract/topcv_scraper_v5.py:117 | the tags are filtered one by one in order: the kept tags of two runs of tags are the kept tags of each, concatenated |
| TopcvScraper.KeptIff | extract/topcv_scraper_v5.py:123 | a card is kept exactly when its id is readable and truthy and its title is non-empty |
| TopcvScraper.ReadDefaults | extract/topcv_scraper_v5.py:100-121 | each missing element takes its default ("", "Thỏa thuận", "Không yêu cầu"), and a present one its stripped text |
| TopcvScraper.JobKeys | extract/topcv_scraper_v5.py:123-131 | a kept job has exactly the thirteen TopCV columns with source, dates, id and title filled |
| TopcvScraper.JobOfCard | extract/topcv_scraper_v5.py:99-131 | a kept job's title, salary, experience, company, location and posted time are the card's texts or their defaults |
| TopcvScraper.ScrapedJobs | extract/topcv_scraper_v5.py:97-133 | every scraped job is the kept reading of a card on a page read |
| TopcvScraper.ParseCards | extract/topcv_scraper_v5.py:97-133 | the card loop produces the kept jobs of the page's cards, in order |
| TopcvScraper.HeaderComplete | extract/topcv_scraper_v5.py:205-207 | with data, the written header is the full column list |
| TopcvScraper.ScrapeWithPagination | extract/topcv_scraper_v5.py:61-142 | the page loop produces exactly the scrape specification: the kept cards of the pages up to the first empty or failing page, at most three pages |
| TopcvScraper.Run | extract/topcv_scraper_v5.py:178-231 | a missing or disabled source changes nothing; a driver failure closes the run `Failed`; otherwise the scraped data is written and logged as the run's outcome |
| TopcvScraper.WrittenFileLoads | extract/topcv_scraper_v5.py:205-208 | the file the scraper writes reads back in the staging loader as one row per job with every column's value |
| JobsgoScraper.ReadableSpec | extract/jobsgo_scraper_v1.py:113-120 | the badges read are the prefix before the first badge that fails to read |
| JobsgoScraper.LastTitledDefault | extract/jobsgo_scraper_v1.py:112-120 | with no badge of a title, the field keeps its default |
| JobsgoScraper.LastTitledLast | extract/jobsgo_scraper_v1.py:115-119 | the field takes the stripped text of the last badge with its title |
| JobsgoScraper.ReadBadges | extract/jobsgo_scraper_v1.py:112-120 | the badge loop gives experience, job type and posted time from the last readable badge of each title, or their defaults |
| JobsgoScraper.ReadSpans | extract/jobsgo_scraper_v1.py:104-109 | salary is the first span and location the third, when present, else the defaults |
| JobsgoScraper.ReadCard | extract/jobsgo_scraper_v1.py:97-125 | reading a card produces its specified texts |
| JobsgoScraper.KeptIff | extract/jobsgo_scraper_v1.py:127 | a card is kept exactly when its id is readable and truthy and its title is non-empty |
| JobsgoScraper.JobKeys | extract/jobsgo_scraper_v1.py:127-135 | a kept job has exactly the thirteen JobsGO columns with source, dates, id and title filled |
| JobsgoScraper.JobOfCard | extract/jobsgo_scraper_v1.py:97-135 | a kept job's salary and location come from the spans, and its experience, type and posted time from the badges |
| JobsgoScraper.ParseCard | extract/jobsgo_scraper_v1.py:96-137 | one card gives the job of its reading when kept, and None otherwise |
| JobsgoScraper.ParseCards | extract/jobsgo_scraper_v1.py:95-137 | the card loop produces the kept jobs of the page's cards, in order |
| JobsgoScraper.ScrapedJobs | extract/jobsgo_scraper_v1.py:95-137 | every scraped job is the kept reading of a card on a page read |
| JobsgoScraper.HeaderComplete | extract/jobsgo_scraper_v1.py:197-199 | with data, the written header is the full column list |
| JobsgoScraper.ScrapePagination | extract/jobsgo_scraper_v1.py:61-146 | the page loop produces exactly the scrape specification, at most fifty pages |
| JobsgoScraper.Run | extract/jobsgo_scraper_v1.py:174-220 | a missing or disabled source changes nothing; a driver failure closes the run `Failed`; otherwise the scraped data is written and logged as the run's outcome |
| JobsgoScraper.WrittenFileLoads | extract/jobsgo_scraper_v1.py:197-200 | the file the scraper writes reads back in the staging loader as one row per job with every column's value |

## Where the code and its description differ

The model follows the code in each of these cases.

* The transformer stores the raw salary text (staging/staging_transformer_v2.py:136-149) and never calls `clean_salary`. `clean_salary` is modelled on its own.
* A row that fails to convert ends the whole transformer run (staging/staging_transformer_v2.py:160-166). Its siblings are not processed. The upserts already executed stay in the jobs table.
* An empty staging table makes the transformer return before it closes its log row (staging/staging_transformer_v2.py:111-113). That row stays `Running`.
* The datamart loader logs only `Start`, `Success` and `Fail`, without a row count (datamart/load_to_dm.py:68-84).

## Left out

* I/O is left out: files, logging, the browser driver, sleeps, waits, database connections and configuration reads. The browser, glob, query results, dimension rows and clocks (`NOW()`, `datetime.now()`) are parameters.
* SQL statements whose failure is an input: the staging loader's insert of each file, the datamart's connection, `DROP`, `CREATE` and insert of each table, and the transformer's first log insert. `executemany` is atomic.
* SQL statements taken to succeed: the staging loader's `TRUNCATE` (staging/staging_loader.py:65), the transformer's `SELECT` of the staging table (staging/staging_transformer_v2.py:108-109), its `SELECT` and `INSERT` on `process_config` (staging/staging_transformer_v2.py:37-47), and every write to the control logs other than the transformer's first log insert.
* StagingTransformer.TransformSpec: an upsert fails only for a null `job_id`, which assumes the jobs table declares `job_id` NOT NULL; other database errors of the upsert (a too-long value, a lost connection) are not modelled.
* TopcvScraper.Run and JobsgoScraper.Run: every job of a run carries the same `extracted_timestamp`, one clock reading per run, while the source reads the clock once per kept card (extract/topcv_scraper_v5.py:130, extract/jobsgo_scraper_v1.py:134).
* Calendar.FormatDate: the year is always zero-padded to four digits, as `str(d)` does; `%Y` does not pad years below 1000 on every platform.
* The aggregation query of the datamart loader, its `GROUP BY` and the evaluation of metric expressions are not modelled. The query result is an input.
* CSV quoting and encoding (`utf-8-sig`) are left out. A file is its sequence of records, and the round trip `to_csv`/`DictReader` is taken as exact.
* The file size is a parameter, not computed from the file.
* JobsgoScraper.ReadCard: does not model an exception raised midway through reading the spans or while listing badges. A failure reading one badge ends the badge loop, keeping the fields set before it.
* TopcvScraper.Run: the only card-level exception modelled is a failure to read the card's id. The source's `except: continue` covers any exception in the card.
* Extraction.OutputFound: a raw data path ending in `/` and a source id holding a `/` are excluded by its precondition, and the extractor's date is taken to be the canonical `YYYY-MM-DD` text. The extractors keep `--date` as typed (extract/topcv_scraper_v5.py:152-154, extract/jobsgo_scraper_v1.py:154-156), while the loader rewrites it through `strptime`/`strftime` (staging/staging_loader.py:50, :103-107); Extraction.OutputFoundOnlyCanonical states what happens otherwise.
* Lowercasing covers ASCII, Latin-1 and Vietnamese letters only.
* `LoadToWH.java`, `app.py` and `import_date_dim.py` are not part of this model.
