# Data pedigree search agent — a verified Dafny model

The repository is a small Python data-analysis agent in two scripts. The first,
`Searching_Agent_api.py`, does four things:

- It loads a weather CSV and cleans its numeric columns.
- It describes the dataset to a language model in a prompt.
- It parses the model's reply into a category and a list of websites.
- It crawls those websites for `div.data-item` nodes, collecting title, link and source.

The second, `Searching_Agent.py`, runs the fuller analysis:

- It performs the same load and clean.
- It takes the summer (June–August) and winter (December–February) subsets of `tavg`.
- It posts an analytics event and prints a success or failure report that depends on
  the HTTP status.

This project models that core:

- `Strings` models the Python string operations the parser relies on, with their exact
  semantics:
  - `str.split` with a one-character separator.
  - `str.strip`, using the characters `str.isspace` accepts.
  - `', '.join`.
  - Decimal rendering of an `int` inside an f-string.
- `Seqs` selects rows by a boolean mask. It serves both the website filter and the
  seasonal subsets.
- `Suggestion` models `parse_suggestion`, the prompt, `get_category_and_websites` and
  the dataset description built from the sample's column names.
- `Crawler` models `web_crawler` as an imperative method: three nested loops, proved
  equal to the specification function `CrawlAll`. The network and the HTML parser become
  a script of fetch outcomes. When the script runs out, the crawl reports
  `completed == false`; the program itself would still be looping at that point.
- `CrawlerProperties` states what a crawl guarantees, in these cases:
  - No pages at all.
  - Clean pages, checked against an independent reference definition.
  - Repeated pages.
  - Failing sites, which are retried forever.
  - Pages cut short by an anchor without `href`.
  - Empty pages.
- `Frame` models the data frame as a class whose columns the cleaning loop reassigns in
  place (`df[col] = pd.to_numeric(df[col].replace('T', '0.0'), errors='coerce')`). The
  loop is proved against the specification function `Cleaned`.
- `Seasons` models the summer and winter row selections on `tavg`.
- `Telemetry` models the analytics payload and the status-dependent messages.
- `Analysis` models the two `analyze_data` functions end to end, including:
  - The missing-file path.
  - The `KeyError` of an absent column.
  - An uncaught exception from the POST.

Three behaviours of the code are easy to miss, and the model keeps each of them:

- A failed `requests.get` is caught inside the `while page <= max_pages` loop, and `page`
  is not advanced. The same page of the same website is therefore requested again; the
  crawl does not move on. A website that always fails keeps the crawler looping forever
  (`CrawlerProperties.AlwaysFailingNeverFinishes`).
- An exception raised by `requests.post` is not caught, so it escapes `analyze_data`
  (`Analysis.PostRaised`). It is not reported as "tracking failed".
- `pd.to_datetime(..., format='%d/%m/%y')` raises `ValueError` on a malformed date; it
  does not coerce it. The input `DateColumn` is either `Unparsable` or a parsed month per
  row, and the `ValueError` escapes both `analyze_data` functions (`Analysis.BadDate`,
  `Analysis.SampleDateError`).

## Model

| member | source | states |
|---|---|---|
| Strings.Strip | Searching_Agent_api.py:27-28 | the result has no leading or trailing whitespace, is no longer than its input, uses only characters of its input, and is empty exactly when the input is all whitespace |
| Strings.StripCharacterised | Searching_Agent_api.py:27-28 | stripping whitespace, then a stripped core, then whitespace yields exactly that core |
| Strings.StripIdempotent | Searching_Agent_api.py:27-28 | stripping twice is the same as stripping once |
| Strings.IndexOf | Searching_Agent_api.py:27 | the index is that of the first occurrence of the character, or the length when it does not occur |
| Strings.Split | Searching_Agent_api.py:26-27 | `split` yields at least one piece, no piece contains the separator, and there are at least two pieces exactly when the separator occurs |
| Strings.JoinSplit | Searching_Agent_api.py:26 | joining the pieces of a split with the separator gives back the original string |
| Strings.SplitJoin | Searching_Agent_api.py:89 | splitting a join of separator-free pieces gives back the pieces |
| Strings.SplitAtFirst | Searching_Agent_api.py:27 | the first piece of a split is the text before the first separator, and the rest are the pieces of the text after it |
| Strings.Join | Searching_Agent_api.py:89 | the join starts with the first piece, and it is empty exactly when every piece is empty and there is at most one piece or the separator is empty |
| Strings.NatToString | Searching_Agent.py:88 | the decimal rendering of an integer is non-empty, all digits, and has no leading zero |
| Strings.NatToStringRoundTrip | Searching_Agent.py:88 | reading the decimal rendering back gives the number |
| Seqs.TrueIndices | Searching_Agent_api.py:28 | the selected indices are in range, strictly increasing, and are exactly the positions where the mask is true |
| Seqs.Select | Searching_Agent_api.py:28 | a masked selection is never longer than the sequence it selects from |
| Seqs.SelectUniform | Searching_Agent.py:74-75 | a mask that marks every row keeps the whole column, and one that marks none keeps nothing |
| Seqs.SelectAtTrueIndices | Searching_Agent_api.py:28 | a masked selection holds, in order, exactly the elements at the true positions of the mask |
| Suggestion.NonBlankStripped | Searching_Agent_api.py:28 | every kept line is non-empty, stripped, and the strip of some input line |
| Suggestion.ParseSuggestion | Searching_Agent_api.py:25-29 | the category is stripped and has no colon or newline; the websites are non-empty, stripped, newline-free, and at most one fewer than the reply's lines |
| Suggestion.CategoryBetweenFirstColons | Searching_Agent_api.py:27 | the category is the strip of the text between the first and second colon of the first line, or the strip of the whole first line when it has no colon |
| Suggestion.WebsitesAreNonBlankLines | Searching_Agent_api.py:28 | the websites are, in order, the strips of exactly those lines after the first whose strip is non-empty |
| Suggestion.Prompt | Searching_Agent_api.py:20 | the prompt embeds the description between the fixed prefix and suffix |
| Suggestion.PromptRoundTrip | Searching_Agent_api.py:20 | the description can be recovered from the prompt |
| Suggestion.GetCategoryAndWebsites | Searching_Agent_api.py:19-23 | the result is the parse of the model's reply to the prompt, with the guarantees of `ParseSuggestion` |
| Suggestion.DatasetDescription | Searching_Agent_api.py:89 | the description starts with "A dataset with columns: " |
| Suggestion.DescriptionRoundTrip | Searching_Agent_api.py:89 | for a non-empty list of comma-free column names, the names can be read back from the description |
| Crawler.Extract | Searching_Agent_api.py:45-47 | a node raises exactly when it has an anchor without `href`; otherwise its record carries the h2 text or "No title", the href or "No link", and the website as source |
| Crawler.ScanPage | Searching_Agent_api.py:44-47 | one page's `for` loop yields at most one record per node |
| Crawler.ScanPageRecords | Searching_Agent_api.py:44-47 | the records of a page are, in order, the extractions of its leading nodes; they stop at the first node that raises, and the scan raises exactly when such a node exists |
| Crawler.CrawlSite | Searching_Agent_api.py:37-51 | the page loop of one website uses no more fetches than the script holds, and stops unfinished only when it has used them all |
| Crawler.CrawlAll | Searching_Agent_api.py:31-53 | the whole crawl uses no more fetches than the script holds, and stops unfinished only when it has used them all |
| Crawler.WebCrawler | Searching_Agent_api.py:31-53 | the nested loops, with `max_pages` defaulting to 2, gather exactly the records, fetch count and completion of the specification `CrawlAll` |
| Crawler.CrawlWebsite | Searching_Agent_api.py:37-51 | the page loop for one website appends exactly what `CrawlSite` gathers from page 1 |
| Crawler.ScrapePage | Searching_Agent_api.py:44-47 | the node loop appends exactly the records of `ScanPage` and reports whether a node raised |
| CrawlerProperties.NoPagesNoFetches | Searching_Agent_api.py:37-39 | with `max_pages < 1` nothing is fetched and nothing gathered, for any websites |
| CrawlerProperties.SiteRecordsFromUrl | Searching_Agent_api.py:35-47 | every record gathered for a website has that website as source |
| CrawlerProperties.RecordsGroupedBySite | Searching_Agent_api.py:35-47 | records come grouped by website, in the order of the website list |
| CrawlerProperties.CleanScan | Searching_Agent_api.py:44-47 | a page without raising nodes yields one record per node, as the reference `Harvest` describes |
| CrawlerProperties.CleanSite | Searching_Agent_api.py:37-49 | from page `page`, a website whose fetches are clean takes exactly the `max_pages - page + 1` pages left and yields their harvests in order |
| CrawlerProperties.CleanCrawl | Searching_Agent_api.py:31-53 | with clean fetches, the crawl uses `len(websites) * max_pages` fetches and yields the reference `ExpectedRecords` |
| CrawlerProperties.SamePageRepeated | Searching_Agent_api.py:39-49 | a website serving the same clean page yields that page's records `max_pages` times over |
| CrawlerProperties.FailuresRetrySamePage | Searching_Agent_api.py:39-51 | failed fetches do not advance the page: after k failures the website is crawled from the same page |
| CrawlerProperties.AlwaysFailingNeverFinishes | Searching_Agent_api.py:39-51 | if every fetch fails, the crawl uses up every fetch, never completes, and gathers nothing |
| CrawlerProperties.PartialPageKept | Searching_Agent_api.py:40-51 | a page cut short by an anchor without `href` keeps the earlier nodes' records, and the same page is fetched again |
| CrawlerProperties.EmptyPagesContributeNothing | Searching_Agent_api.py:44-49 | pages with no matching nodes, or failures, contribute no record |
| Frame.Coerce | Searching_Agent.py:25 | "T" becomes 0.0, any other text becomes missing, numbers and missing values stay; no text survives |
| Frame.Cleaned | Searching_Agent.py:23-25 | cleaning keeps every column and its length, leaves unlisted columns unchanged, and coerces each cell of the listed ones |
| Frame.CleanedIdempotent | Searching_Agent.py:23-25 | cleaning an already cleaned table changes nothing |
| Frame.DataFrame.Assign | Searching_Agent.py:25 | `df[col] = values` replaces an existing column in place or appends a new one, and changes nothing else |
| Frame.CleanColumns | Searching_Agent.py:23-25 | the loop stops at the first absent column, which it reports as the `KeyError`, having cleaned exactly the columns before it; column order and row count are unchanged |
| Analysis.LoadAndClean | Searching_Agent.py:13-27 | a missing file leaves the table untouched; otherwise the `KeyError` names the first absent numeric column, or else an absent `date`, with exactly the columns before it cleaned; after that a malformed date is the `ValueError`; columns and row count are kept |
| Analysis.AnalyzeData | Searching_Agent.py:9-105 | the table keeps its columns and row count; the outcome is `MissingColumn` exactly when the file exists and a needed column is absent, naming the first absent one; `BadDate` exactly when the columns are there but a date is malformed; otherwise it carries the payload for the loaded row count, the seasonal subsets of the cleaned `tavg`, and the status messages, or the POST exception when the post raised |
| Analysis.AnalyzeSample | Searching_Agent_api.py:55-84 | the table keeps its columns and row count; the `KeyError` names the first absent needed column, the `ValueError` comes exactly from a malformed date, and otherwise the sample's keys are the table's columns with the numeric ones cleaned |
| Seasons.Summer | Searching_Agent.py:74 | the summer subset is no longer than the column, and empty when no row is dated in summer |
| Seasons.Winter | Searching_Agent.py:75 | the winter subset is no longer than the column, and empty when no row is dated in winter |
| Seasons.SummerRows | Searching_Agent.py:74 | the summer subset holds, in row order, exactly the `tavg` values of rows dated June, July or August |
| Seasons.WinterRows | Searching_Agent.py:75 | the winter subset holds, in row order, exactly the `tavg` values of rows dated December, January or February |
| Seasons.SeasonsDisjoint | Searching_Agent.py:74-75 | no row is in both subsets; spring and autumn rows, and rows whose date is NaT, are in neither |
| Seasons.SeasonSizes | Searching_Agent.py:74-75 | the subsets together hold at most all rows, and all of them exactly when every row has a date in summer or winter |
| Telemetry.RecordsLabel | Searching_Agent.py:88 | the `el` label is "Analyzed ", then a decimal numeral, then " records" |
| Telemetry.MakePayload | Searching_Agent.py:81-90 | the payload has exactly the eight form keys, carries the tracking id and the row-count label, and only `ev` is an integer |
| Telemetry.PayloadCarriesRowCount | Searching_Agent.py:88 | the row count can be read back from the payload's label |
| Telemetry.TrackingMessages | Searching_Agent.py:93-105 | status 200 gives the four success lines, starting with the status line; any other status gives only "tracking failed" |

## Left out

- The language model (`pipeline`, the tokenizer, `query_llama`) is a function parameter of `GetCategoryAndWebsites`: its output is arbitrary text.
- `requests.get`, `response.text` and `BeautifulSoup(...).find_all('div', class_='data-item')` become a script of fetch outcomes. Any exception from them is `Failed`, and a page is the list of its matching nodes with their first `h2` text and first `a` tag.
- Crawler.WebCrawler: the unbounded retry loop is bounded by the finite fetch script. A crawl that would loop forever is reported as `completed == false` once the script is exhausted.
- The `category` argument of `web_crawler` and that function's `print` output (including the "Error crawling" lines) are not modelled, because they do not affect the returned data. Of the prints of `analyze_data`, only the tracking report is modelled (`TrackingMessages`).
- `os.path.exists` is a boolean parameter. `pd.read_csv` and CSV parsing are not modelled: the loaded table is the method's `DataFrame` argument.
- Frame.Coerce: pandas' parse of numeric-looking text is not modelled. Such cells are taken to be numbers already, so any text other than "T" becomes missing.
- Floating-point values are `real`. Rendering of floats and the `dtypes` report are not modelled.
- The parsing of the date strings against `%d/%m/%y` is not modelled. Its result is the `DateColumn` input: either a malformed value (the `ValueError`) or a month per row, `None` for a blank cell that becomes NaT.
- The parsed timestamps are not stored back into the `date` column of the `DataFrame`: a `Cell` cannot hold a timestamp. Only their months are used, through the `DateColumn` input.
- `set_index('date', inplace=True)` is not modelled: its only effect used later is the month index, which the `DateColumn` input supplies.
- `describe`, `corr`, the heatmap, `resample('M').mean()`, the plots and the PNG files are not modelled. They are printing, plotting and floating-point statistics that do not influence the returned data. A `corr` exception on non-numeric columns is not modelled either.
- `stats.ttest_ind` is not modelled: only the two samples it receives are.
- Analysis.AnalyzeSample: only the keys of `df.head().to_dict()` are modelled, not the values of the first five rows.
- The network POST is a parameter: it returns a status code or raises.
- The top-level example usage (fixed file paths and tracking id) is not modelled. The description built from the sample's keys is `DatasetDescription`.
