# A Dafny model of the vc-intelligence-app enrichment endpoint and page logic

The application is a small venture-research tool. Its core is the `POST` handler for
the website-enrichment endpoint `/api/enrich`. The handler:

- takes a company website;
- checks the website and parses it as an http or https URL;
- fetches the page, with a time limit;
- pulls the `<title>` and the meta description out of the HTML;
- builds a text brief from these deterministically: a summary, what the company does,
  keywords, technical signals, sources and raw metadata.

Around this core, four client components hold real logic:

- the companies table: search filter, insight counts, pagination five rows at a time,
  and per-row signals, badges and a momentum sparkline;
- the lists page: create a list, add a company to a list without duplicates, and split
  the dataset into a list's companies and the companies still available;
- the saved-searches page: save a search at the front of the list, with a link that
  re-runs it;
- the company profile: notes, a Save Company button that saves each company once, and
  an enrichment flag.

The model is organised as follows:

- **Library modules:**
  - `JsText`: JavaScript's `\s` class, `trim`, `replace(/\s+/g, " ")`, `includes`,
    `split`, `join` and ASCII `toLowerCase`;
  - `JsNumbers`: number to string;
  - `JsValues`: JSON values and truthiness;
  - `Sequences`: `filter`, `new Set` de-duplication, `slice`;
  - `UriComponent`: `encodeURIComponent`;
  - `Wrappers`: `Option`.
- **The endpoint** has four modules:
  - `EnrichExtract`: sanitising, and the two regular expressions, modelled as leftmost
    searches with the engine's backtracking preference written out;
  - `EnrichWords`: what sanitising does to the words of a text;
  - `EnrichHeuristics`: the `get*`/`build*` helpers and the assembled text;
  - `EnrichRoute`: the input guard, the fetch outcome and `POST`.
- **The UI logic** has one module per component file. Each file's React state and its
  slice of `localStorage` become a class with `modifies this` methods. `Valid()` says
  that the state agrees with storage, or that the page number is in range. `Previous`
  and `Next` require it. The other methods say when they keep it or establish it:
  - `CompaniesTable`;
  - `ListsPage`;
  - `SavedPage`;
  - `CompanyProfile`.
  The shared record type is in `CompanyData`.

The URL parser and the network are parameters of `EnrichRoute.Post`:

- `parseUrl` stands for `new URL(...)`. It returns None where the constructor throws.
- `fetch` returns how the request ended: a status and body text, or a thrown error with
  its message. A failure while reading the body is one such thrown error.

Clock values (`Date.now()`, `toISOString()`) are method parameters. Storage entries are
class fields.

## Model

| member | source | states |
|---|---|---|
| EnrichRoute.Post | app/api/enrich/route.js:1-18 | The checks run in the order of the source, and none of their failures fetches anything. An unreadable or `null` body gives 500 with the generic message. A missing, empty or non-string website gives 400 "Website is required". A parse failure gives 400 "Invalid website URL". Any protocol except `http:`/`https:` gives 400 "Only http/https URLs are supported". In every other case the result is the enrichment of the page fetched from the URL's serialisation, and only then is a fetch made. |
| EnrichRoute.FetchPage | app/api/enrich/route.js:20-43 | The request goes to the URL's serialisation, and the method returns that URL. The `html` and warning the `try`/`catch` leave behind are exactly the translation of the fetch outcome. |
| EnrichRoute.TranslateFetch | app/api/enrich/route.js:34-41 | An ok response (status 200-299) gives the body as `html` and no warning. A non-ok response gives an empty `html` and a warning containing the status. A thrown error gives an empty `html` and a warning containing its message, or "Unknown error" when there is none. The warning is empty exactly when the response was ok. |
| EnrichRoute.Enrichment | app/api/enrich/route.js:45-71 | The answer for a fetched page: the title and description are extracted from the HTML and passed, with the warning, to `ResultText`. It has no contract of its own; `EnrichmentReportsFetch` and `FailedFetchHasNoMetadata` state its properties. |
| EnrichRoute.EnrichmentReportsFetch | app/api/enrich/route.js:50-66 | The answer lists the fetched URL as its one source. Its first signal is the success sentence after an ok response and the fetch warning otherwise. |
| EnrichRoute.FailedFetchHasNoMetadata | app/api/enrich/route.js:45-46 | After a failed fetch there is no title and no description. The answer's signals say both are missing, and its metadata lines print "Unavailable" for both. |
| EnrichExtract.SanitizeString | app/api/enrich/route.js:94-97 | A non-string gives "". Otherwise the result has no leading or trailing white space, and its only white space is single plain spaces. It keeps every non-white-space character of the input, in order, and its characters all come from the input. |
| EnrichWords.TrimJoinParts | app/api/enrich/route.js:96 | For pieces shaped like the output of `split(/\s+/)`, trimming their join with single spaces gives the non-empty pieces, in order, joined by single spaces. |
| EnrichWords.SanitizeWords | app/api/enrich/route.js:94-97 | Sanitising a string gives its words, which are the non-empty pieces of `split(/\s+/)`, in order, joined by single spaces. |
| EnrichExtract.SanitizeIdempotent | app/api/enrich/route.js:94-97 | Sanitising twice gives the same result as sanitising once. |
| EnrichExtract.TitleMatchUnique | app/api/enrich/route.js:82 | At a given position the title pattern matches in at most one way: the first `>` after `<title`, then the first `</title>` after it. |
| EnrichExtract.TitleAt | app/api/enrich/route.js:82 | Finds the match of the title pattern that starts at a position, or reports that there is none. |
| EnrichExtract.TitleSearch | app/api/enrich/route.js:82 | Finds the leftmost position where the title pattern matches. No earlier position matches. A None result means no position matches at all. |
| EnrichExtract.ExtractTitle | app/api/enrich/route.js:80-84 | Empty HTML gives "". The result is always sanitised. |
| EnrichExtract.TitleOfFirstMatch | app/api/enrich/route.js:82-83 | When the leftmost match of `/<title[^>]*>([\s\S]*?)<\/title>/i` is at a given position, the title is that match's capture, sanitised. |
| EnrichExtract.TitleWithoutMatch | app/api/enrich/route.js:82-83 | HTML in which the title pattern never matches gives "". |
| EnrichExtract.TitleCapture | app/api/enrich/route.js:82-83 | The title pattern's capture, or "" without a match. It has no contract of its own; `TitleOfFirstMatch` and `TitleWithoutMatch` state what it gives. |
| EnrichExtract.FindGt | app/api/enrich/route.js:82 | Gives the first `>` at or after a position, or shows that there is none. |
| EnrichExtract.FindAt | app/api/enrich/route.js:82 | Gives the first case-insensitive occurrence of a pattern at or after a position, or shows that there is none. |
| EnrichExtract.FindQuote | app/api/enrich/route.js:89 | Gives the first `"` or `'` at or after a position, or shows that there is none. |
| EnrichExtract.ValueAt | app/api/enrich/route.js:89 | The `([^"']*)` capture never contains a quote. |
| EnrichExtract.NameFirstPreferredUnique | app/api/enrich/route.js:89 | The engine's preferred match of the name-before-content pattern at a position is unique: the last `name=` whose content part still matches, then the last `content=`. |
| EnrichExtract.NameFirstBounds | app/api/enrich/route.js:89 | A name-before-content match lies inside the tag: everything up to the value comes before the tag's first `>`. |
| EnrichExtract.ContentFirstBounds | app/api/enrich/route.js:90 | A content-before-name match lies inside the tag in the same way. |
| EnrichExtract.NameAttrHasNoGt | app/api/enrich/route.js:89 | The `name="description"` attribute text contains no `>`. |
| EnrichExtract.ContentOpenHasNoGt | app/api/enrich/route.js:89 | The `content="` text contains no `>`. |
| EnrichExtract.LastNameAttrIn | app/api/enrich/route.js:89 | Gives the last `name="description"` attribute in a range, which is where the greedy `[^>]+` backtracks to first. |
| EnrichExtract.LastContentIn | app/api/enrich/route.js:89 | Gives the last `content="…"` with a closed value in a range. |
| EnrichExtract.NameFirstBelow | app/api/enrich/route.js:89 | Among name-before-content matches whose name attribute lies at or below a bound, gives the one the engine prefers. |
| EnrichExtract.NameFirstAt | app/api/enrich/route.js:89 | At a `<meta` position, gives the preferred name-before-content match, or shows that there is none. |
| EnrichExtract.ContentFirstWith | app/api/enrich/route.js:90 | For a fixed `content=` position, gives the last `name="description"` that completes the content-before-name pattern, or shows that there is none. |
| EnrichExtract.ContentFirstBelow | app/api/enrich/route.js:90 | Among content-before-name matches whose content attribute lies at or below a bound, gives the one the engine prefers. |
| EnrichExtract.ContentFirstAt | app/api/enrich/route.js:90 | At a `<meta` position, gives the preferred content-before-name match, or shows that there is none. |
| EnrichExtract.NameFirstSearch | app/api/enrich/route.js:89 | Finds the leftmost `<meta` where the name-before-content pattern matches, with its preferred match. |
| EnrichExtract.NameFirstSearchFinds | app/api/enrich/route.js:89 | The leftmost preferred name-before-content match is exactly the match the search returns. |
| EnrichExtract.ContentFirstSearch | app/api/enrich/route.js:90 | Finds the leftmost `<meta` where the content-before-name pattern matches, with its preferred match. |
| EnrichExtract.ContentFirstSearchFinds | app/api/enrich/route.js:90 | The search returns the position and content attribute of the leftmost preferred content-before-name match. |
| EnrichExtract.MetaCapture | app/api/enrich/route.js:88-91 | The capture chosen by the `\|\|` of the two patterns contains no quote. |
| EnrichExtract.SanitizeKeepsQuotesOut | app/api/enrich/route.js:91-96 | Sanitising a quote-free text keeps it free of quotes. |
| EnrichExtract.ExtractMetaDescription | app/api/enrich/route.js:86-92 | Empty HTML gives "". The result is sanitised and contains neither `"` nor `'`. |
| EnrichExtract.DescriptionFromNameFirst | app/api/enrich/route.js:89-91 | When the name-before-content pattern matches, the description is its leftmost preferred capture, sanitised. This order is tried first. |
| EnrichExtract.DescriptionFromContentFirst | app/api/enrich/route.js:90-91 | When only the content-before-name pattern matches, the description is its leftmost preferred capture, sanitised. |
| EnrichExtract.DescriptionWithoutMatch | app/api/enrich/route.js:88-91 | When neither pattern matches, the description is "". |
| EnrichHeuristics.StripWww | app/api/enrich/route.js:100 | Removes one leading `www.` and nothing else. |
| EnrichHeuristics.DomainKeyword | app/api/enrich/route.js:99-102 | The keyword contains no `.`. It is the start of the host without `www.`, running up to the first `.` or the end. |
| EnrichHeuristics.FirstLabel | app/api/enrich/route.js:101 | `split(".")[0]` of `first.rest` is `first` when `first` has no dot. |
| EnrichHeuristics.NotWwwPrefix | app/api/enrich/route.js:100 | A host whose first label is not `www` does not start with `www.`. |
| EnrichHeuristics.DomainKeywordOfHost | app/api/enrich/route.js:99-102 | Both `first.rest` and `www.first.rest` give `first`. At most one `www.` is stripped. |
| EnrichHeuristics.DomainKeywordExample | app/api/enrich/route.js:99-102 | Host "www.acme.com" gives "acme". |
| EnrichHeuristics.TitleSummary | app/api/enrich/route.js:107 | The title sentence starts with the title, names the domain and ends with the validation clause. |
| EnrichHeuristics.DomainSummary | app/api/enrich/route.js:108 | The domain-only sentence starts with the domain and ends with the validation clause. |
| EnrichHeuristics.BuildSummary | app/api/enrich/route.js:104-109 | The summary always ends with "Further validation is recommended from additional public sources.". With a description it starts with the description. Without one it takes the title branch when there is a title, and the domain-only branch otherwise. |
| EnrichHeuristics.BuildWhatTheyDo | app/api/enrich/route.js:111-121 | There are exactly five items. The first is the description or the fixed fallback. The second quotes the title, or says that the title is unavailable. The third names the domain keyword. |
| EnrichHeuristics.KeywordFoldChar | app/api/enrich/route.js:126-127 | `toLowerCase` followed by `replace(/[^a-z0-9\s]/g, " ")` turns one character into one or two characters from `[a-z0-9]` or white space. |
| EnrichHeuristics.KeywordFold | app/api/enrich/route.js:126-127 | The folded text holds only `[a-z0-9]` and white space. |
| EnrichHeuristics.KeywordFoldOfAlnum | app/api/enrich/route.js:126-127 | On ASCII letters, digits and white space the fold is plain lower-casing. |
| EnrichHeuristics.KeywordFoldAppend | app/api/enrich/route.js:126-127 | The fold works character by character, so folding a concatenation gives the concatenation of the folded parts. |
| EnrichHeuristics.KeywordFoldOfWord | app/api/enrich/route.js:126-127 | A word made of `[a-z0-9]` is left unchanged by the fold. |
| EnrichHeuristics.KeywordFoldOfJoin | app/api/enrich/route.js:126-127 | Such words joined by single spaces are left unchanged by the fold. |
| EnrichHeuristics.FoldedTitleSplit | app/api/enrich/route.js:125-128 | When the title is `[a-z0-9]` words joined by single spaces, the folded `title + " " + description` splits into those words first, then into the pieces of the folded description. |
| EnrichHeuristics.TitleWordsAreTokens | app/api/enrich/route.js:125-129 | When the title is `[a-z0-9]` words joined by single spaces, every word of it longer than three characters is among the candidate keywords. |
| EnrichHeuristics.Tokens | app/api/enrich/route.js:125-129 | Every word is longer than three characters and made of `[a-z0-9]` only. `TitleWordsAreTokens` states which words are kept. |
| EnrichHeuristics.BuildKeywords | app/api/enrich/route.js:123-133 | There are between one and five keywords, and the domain keyword comes first. |
| EnrichHeuristics.KeywordsNeverFallBack | app/api/enrich/route.js:131-132 | The result is always the first five de-duplicated words. The fallback list is unreachable. |
| EnrichHeuristics.KeywordsShape | app/api/enrich/route.js:123-133 | The keywords have no duplicates. After the domain keyword come only title and description words. A word is left out only when all five places are taken. |
| EnrichHeuristics.BuildSignals | app/api/enrich/route.js:135-141 | There are exactly three signals. The first is the warning, or the success sentence when there is no warning. The second says "present" exactly when there is a title. The third says "present" exactly when there is a description. |
| EnrichHeuristics.Bullets | app/api/enrich/route.js:57 | Each item becomes `- item`, in order. |
| EnrichHeuristics.Assemble | app/api/enrich/route.js:53-71 | The array literal has fourteen fixed lines plus one bullet per spread item. |
| EnrichHeuristics.AssembleLayout | app/api/enrich/route.js:53-71 | The position of every section heading and bullet. An empty title or description is printed as "Unavailable". |
| EnrichHeuristics.ResultLines | app/api/enrich/route.js:45-71 | The answer has 23 lines before they are joined. |
| EnrichHeuristics.ResultText | app/api/enrich/route.js:53-71 | The result lines joined with newlines. It has no contract of its own; `ResultLines` and `ResultLayout` state the lines. |
| EnrichHeuristics.ResultLayout | app/api/enrich/route.js:51-71 | The answer lists exactly one source, the URL. It shows all five "what they do" items and all three signals as bullets, and prints "Unavailable" for a missing title or description. |
| CompaniesTable.MatchingCompanies | app/components/CompaniesTable.js:20-24 | The filter keeps companies in their original order. A company is kept exactly when its name, industry, location or stage contains the query, ignoring case. Each kept company appears as often as in the input. |
| CompaniesTable.FilterCompanies | app/components/CompaniesTable.js:17-25 | A search that is blank after trimming returns all companies unchanged. Otherwise the result is the matching companies for the trimmed, lower-cased query. |
| CompaniesTable.Query | app/components/CompaniesTable.js:18 | `search.trim().toLowerCase()`. It has no contract of its own; `FilterCompanies` states how the query is used. |
| CompaniesTable.Matches | app/components/CompaniesTable.js:21-22 | The filter test: the name, industry, location or stage contains the query, in lower case. It is a predicate with no contract of its own; `MatchingCompanies` states what it selects. |
| CompaniesTable.RefinedQueryNarrows | app/components/CompaniesTable.js:20-24 | A query that contains another keeps only companies the shorter query keeps too. |
| CompaniesTable.DistinctFilled | app/components/CompaniesTable.js:28-29 | The set holds exactly the non-empty values. There are never more of them than there are companies. |
| CompaniesTable.DistinctFilledEmpty | app/components/CompaniesTable.js:28-29 | The set is empty exactly when every value is empty. |
| CompaniesTable.Industries | app/components/CompaniesTable.js:28 | `companies.map((company) => company.industry)`. It has no contract of its own; `DistinctIndustries` states its elements. |
| CompaniesTable.Locations | app/components/CompaniesTable.js:29 | `companies.map((company) => company.location)`. It has no contract of its own; `DistinctLocations` states its elements. |
| CompaniesTable.DistinctIndustries | app/components/CompaniesTable.js:28 | The distinct industries are exactly the non-empty industries of the companies. The set is empty exactly when every industry is empty. |
| CompaniesTable.DistinctLocations | app/components/CompaniesTable.js:29 | The distinct regions are exactly the non-empty locations of the companies. The set is empty exactly when every location is empty. |
| CompaniesTable.ComputeInsights | app/components/CompaniesTable.js:27-36 | The total is the number of companies. The industry and region counts never exceed it, and each is zero exactly when every company's field is empty. Each count is the number of distinct non-empty values in its field, counted as a set over the companies. |
| CompaniesTable.TotalPages | app/components/CompaniesTable.js:38 | There is always at least one page. No rows give one page. Otherwise the count is the smallest number of five-row pages that holds all rows, which is ceil(n/5). |
| CompaniesTable.SafePage | app/components/CompaniesTable.js:39 | The page is `min(page, totalPages)`: it is at most both, and equal to one of them. |
| CompaniesTable.PageRows | app/components/CompaniesTable.js:40 | `filteredCompanies.slice((safePage - 1) * PAGE_SIZE, safePage * PAGE_SIZE)`. It has no contract of its own; `PageRowsShape` states which rows a page shows. |
| CompaniesTable.PagesFrom | app/components/CompaniesTable.js:40 | Pages p to the last one, put together. It has no contract of its own; `PagesFromSuffix` and `PagesCoverRows` state what it gives. |
| CompaniesTable.PageRowsShape | app/components/CompaniesTable.js:40 | Page p shows rows `(p-1)*5` up to `p*5`, clamped at the end. Every page has at most five rows. Every page before the last is full, and the last page is not empty when there are rows. |
| CompaniesTable.PageThenRest | app/components/CompaniesTable.js:40 | Page p followed by the rows after it gives the rows from the page's first index to the end. |
| CompaniesTable.PagesFromSuffix | app/components/CompaniesTable.js:38-40 | Pages p to totalPages, put together, are the rows from `(p-1)*5` to the end, or nothing when p is past the rows. |
| CompaniesTable.PagesCoverRows | app/components/CompaniesTable.js:38-40 | Concatenating pages 1 to totalPages gives back the filtered companies exactly. |
| CompaniesTable.CompaniesTable.Filtered | app/components/CompaniesTable.js:17-25 | The table's `filteredCompanies` for its current search. It has no contract of its own; it is `FilterCompanies` on the table's state. |
| CompaniesTable.CompaniesTable.PageCount | app/components/CompaniesTable.js:38 | The table's `totalPages`. It has no contract of its own; it is `TotalPages` on the filtered rows. |
| CompaniesTable.CompaniesTable.Rows | app/components/CompaniesTable.js:40 | The table's `paginatedCompanies`. It has no contract of its own; it is `PageRows` on the filtered rows. |
| CompaniesTable.CompaniesTable.constructor | app/components/CompaniesTable.js:14-15 | The search starts as the `search` URL parameter, or empty. The table starts on page 1. |
| CompaniesTable.CompaniesTable.OnSearch | app/components/CompaniesTable.js:42-44 | The search box takes the new value and the page goes back to 1. |
| CompaniesTable.CompaniesTable.Previous | app/components/CompaniesTable.js:143 | The page becomes `max(1, page - 1)`. It stays between 1 and the page count. |
| CompaniesTable.CompaniesTable.Next | app/components/CompaniesTable.js:154 | The page becomes `min(totalPages, page + 1)`. It stays between 1 and the page count. |
| CompaniesTable.RowSignals | app/components/CompaniesTable.js:194-202 | There are three signals. The first is "Global" exactly when the location is "USA", and "Regional" otherwise. The second is "Fintech" for Fintech, "SaaS" for Productivity and "Startup" for any other industry. The third is the stage. |
| CompaniesTable.StageBadge | app/components/CompaniesTable.js:177-182 | Builds one stage badge's class string, as the source writes it. It is a proof helper: its contract says only that the colour's first letter is at index 3, which the distinctness proof uses. |
| CompaniesTable.StageBadgeClasses | app/components/CompaniesTable.js:175-183 | Series B gets the blue badge, Series C the purple one and Series D the green one. The slate badge is used exactly for every other stage. |
| CompaniesTable.StageBadgeTellsStagesApart | app/components/CompaniesTable.js:175-183 | Series B, C and D each get their own badge. |
| CompaniesTable.IndustryBadge | app/components/CompaniesTable.js:188-191 | Builds one industry badge's class string, as the source writes it. It is a proof helper: its contract says only that the colour's first letter is at index 7, which keeps the three badges apart. |
| CompaniesTable.IndustryBadgeClasses | app/components/CompaniesTable.js:185-192 | The badge is emerald exactly when the lower-cased industry contains "fintech". It is indigo exactly when it contains "product" but not "fintech", and slate otherwise. |
| CompaniesTable.IndustryBadgeIgnoresCase | app/components/CompaniesTable.js:186 | The badge does not depend on letter case. |
| CompaniesTable.FintechBeforeProduct | app/components/CompaniesTable.js:188-189 | An industry that mentions both "product" and "fintech" gets the fintech badge. |
| CompaniesTable.Utf16Units | app/components/CompaniesTable.js:216-217 | A name has at least as many UTF-16 code units as characters. |
| CompaniesTable.SparklineValues | app/components/CompaniesTable.js:216-218 | The six heights, padded with 10. It has no contract of its own; `SparklineShape` states their range. |
| CompaniesTable.SparklinePoints | app/components/CompaniesTable.js:219 | The points `index * 14, 24 - value`. It has no contract of its own; `SparklineShape` states their coordinates. |
| CompaniesTable.PointText | app/components/CompaniesTable.js:219 | One point written as `x,y`. It has no contract of its own. |
| CompaniesTable.SparklinePath | app/components/CompaniesTable.js:220 | `buildSparklinePoints(seed)`: `M ` and the points joined by ` L `. It has no contract of its own; `SparklinePathStart` states how the path begins. |
| CompaniesTable.SparklineShape | app/components/CompaniesTable.js:215-219 | There are always six points, with x = 0, 14, …, 70 and y between 7 and 18. The padded points have y = 14. |
| CompaniesTable.SparklinePathStart | app/components/CompaniesTable.js:219-220 | The path starts with "M " followed by the first point. |
| CompaniesTable.SparklineExample | app/components/CompaniesTable.js:217-218 | The name "Acme" gives the heights 11, 16, 9 and 8, then two padded heights of 10. |
| ListsPage.AddCompany | app/lists/page.js:29-32 | The number, order, ids and names of the lists are preserved. Lists with another id are unchanged. The target list gains `companyId` at the end only when it was absent, and is unchanged when it was already there. |
| ListsPage.AddCompanyIdempotent | app/lists/page.js:29-32 | Adding the same company twice is the same as adding it once. |
| ListsPage.AppendFresh | app/lists/page.js:31 | Appending an absent id keeps the ids free of duplicates. |
| ListsPage.AddCompanyKeepsIdsUnique | app/lists/page.js:29-32 | Lists whose ids have no duplicates keep them free of duplicates. |
| ListsPage.ListSplitsCompanies | app/lists/page.js:67-68 | A list's companies and the available ones are disjoint, and both keep the dataset order. Together they hold every company the dataset holds, as many times as it holds it. |
| ListsPage.ListCompanies | app/lists/page.js:67 | `listCompanies`: the dataset filtered to the list's ids. It has no contract of its own; `ListSplitsCompanies` and `AddedCompanyMoves` state what it holds. |
| ListsPage.Available | app/lists/page.js:68 | `available`: the dataset filtered to the ids not in the list. It has no contract of its own; `ListSplitsCompanies` and `AddedCompanyMoves` state what it holds. |
| ListsPage.AddedCompanyMoves | app/lists/page.js:28-34 | Once added, a company is shown in the list and no longer offered. |
| ListsPage.ListsPage.constructor | app/lists/page.js:9-13 | The lists start as the stored lists, or none, and the input starts empty. |
| ListsPage.ListsPage.Persist | app/lists/page.js:15-18 | The new lists become both the state and the stored value. |
| ListsPage.ListsPage.SetNewListName | app/lists/page.js:46 | The input takes the typed value. Nothing else changes. |
| ListsPage.ListsPage.CreateList | app/lists/page.js:20-26 | A name that is blank after trimming changes nothing. Otherwise exactly one list is appended after the lists the page holds, with the current time as id, the trimmed name and no companies. The input is cleared, and the new lists are stored. Ids free of duplicates stay free of duplicates. |
| ListsPage.ListsPage.AddCompanyToList | app/lists/page.js:28-34 | The lists the page holds become the result of the add, which is stored too. Ids free of duplicates stay free of duplicates. |
| SavedPage.QueryLabel | app/saved/page.js:81 | An empty query is shown as "(empty)". Any other query is shown as it is. |
| SavedPage.RunSearchHref | app/saved/page.js:85 | An empty query links to "/companies". Any other query links to "/companies?search=" followed by the encoded query. |
| SavedPage.RunSearchHrefIsOneParameter | app/saved/page.js:85 | The encoded query contains only unreserved characters and `%` escapes, so it stays one parameter value. |
| SavedPage.RunSearchHrefOfPlainQuery | app/saved/page.js:85 | A query made only of unreserved characters appears in the link as it is. |
| SavedPage.SavedSearchesPage.constructor | app/saved/page.js:9-14 | The searches start as the stored searches, or none, and both inputs start empty. |
| SavedPage.SavedSearchesPage.Persist | app/saved/page.js:16-19 | The new searches become both the state and the stored value. |
| SavedPage.SavedSearchesPage.SetName | app/saved/page.js:48 | The name input takes the typed value. Nothing else changes. |
| SavedPage.SavedSearchesPage.SetQuery | app/saved/page.js:55 | The query input takes the typed value. Nothing else changes. |
| SavedPage.SavedSearchesPage.SaveSearch | app/saved/page.js:21-35 | A name that is blank after trimming changes nothing. Otherwise the new search goes first, with the current time, the trimmed name and query, and the timestamp. The searches the page holds follow in the same order, and the length grows by one. Both inputs are cleared, and the new searches are stored. |
| CompanyProfile.NotesKey | app/components/CompanyProfileClient.js:9 | The key is "company-notes-" followed by the id. |
| CompanyProfile.NotesKeyInjective | app/components/CompanyProfileClient.js:18-20 | Different companies keep their notes under different keys. |
| CompanyProfile.HasId | app/components/CompanyProfileClient.js:14 | `savedCompanies.some((item) => item.id === id)`. It is a predicate with no contract of its own; `SaveInto` and `SaveIntoHasId` state how saving affects it. |
| CompanyProfile.SaveInto | app/components/CompanyProfileClient.js:24-26 | A company whose id is already saved leaves the list unchanged. Any other company is appended at the end. |
| CompanyProfile.SaveIntoHasId | app/components/CompanyProfileClient.js:24-26 | After a save the company's id is among the saved ones. |
| CompanyProfile.SaveIntoIdempotent | app/components/CompanyProfileClient.js:24-26 | Saving twice is the same as saving once. |
| CompanyProfile.SaveIntoKeepsIdsDistinct | app/components/CompanyProfileClient.js:24-26 | Distinct saved ids stay distinct. |
| CompanyProfile.CompanyProfile.constructor | app/components/CompanyProfileClient.js:7-16 | The notes start as the stored notes, or "". The page says "saved" exactly when the stored list holds the company's id. The enrichment flag starts off. |
| CompanyProfile.CompanyProfile.PersistNotes | app/components/CompanyProfileClient.js:18-21 | The notes become the new text, stored under this company's key alone. Nothing else changes. |
| CompanyProfile.CompanyProfile.SaveCompany | app/components/CompanyProfileClient.js:23-29 | Storage is read again at the click. When it already holds the id, storage and the flag are left alone, so a flag that was off stays off. Otherwise the company is appended and the page says "saved". Afterwards storage always holds the company. When the flag agreed with storage before the click, the page says "saved" and still agrees. |
| CompanyProfile.CompanyProfile.Enrich | app/components/CompanyProfileClient.js:95 | The flag is set, and no method ever clears it. |
| JsText.LeadingSpaces | app/api/enrich/route.js:96 | Counts the white space at the front: everything before the count is white space, and the character at the count is not. |
| JsText.TrimEnd | app/api/enrich/route.js:96 | The result is a prefix of the input, everything dropped is white space, and the result does not end in white space. |
| JsText.Trim | app/api/enrich/route.js:96 | `trim()` leaves a text that neither starts nor ends with white space. That text is the slice of the input starting right after the leading white space, and everything after it is white space. |
| JsText.TrimKeepsContent | app/api/enrich/route.js:96 | `trim()` removes white space only: the non-white-space characters are kept, in order. |
| JsText.TrimFixpoint | app/api/enrich/route.js:96 | A text that neither starts nor ends with white space is left unchanged by `trim()`. |
| JsText.TrimKeepsCollapsed | app/api/enrich/route.js:96 | Trimming a text with single plain spaces keeps its spaces single and plain. |
| JsText.CollapseSpaces | app/api/enrich/route.js:96 | `replace(/\s+/g, " ")` leaves only single plain spaces. It is empty exactly when the input is, and starts with white space exactly when the input does. `CollapseIsJoin` states where the spaces go. |
| JsText.CollapseKeepsContent | app/api/enrich/route.js:96 | Collapsing white space keeps the non-white-space characters, in order. |
| JsText.CollapseFixpoint | app/api/enrich/route.js:96 | A text with single plain spaces only is left unchanged by the replacement. |
| JsText.LowerChar | app/components/CompaniesTable.js:18 | Upper-case ASCII letters become lower case. Every other character is left as it is. |
| JsText.Lower | app/components/CompaniesTable.js:18 | ASCII lower-casing keeps the length. `LowerAt` states it character by character. |
| JsText.LowerAt | app/components/CompaniesTable.js:18 | ASCII lower-casing works character by character: each character goes through `LowerChar`. |
| JsText.LowerAppend | app/components/CompaniesTable.js:22 | Lower-casing a concatenation gives the concatenation of the lower-cased parts. |
| JsText.LowerIdempotent | app/components/CompaniesTable.js:18-22 | Lower-casing twice is the same as lower-casing once. |
| JsText.StartsWith | app/api/enrich/route.js:100 | `startsWith`, used for `/^www\./`. It is a predicate with no contract of its own. |
| JsText.EndsWith | app/api/enrich/route.js:106-108 | `endsWith`, used to state that every summary ends with the validation clause. It is a predicate with no contract of its own. |
| JsText.Contains | app/components/CompaniesTable.js:22 | `includes`. It is a predicate with no contract of its own; `ContainsAt` and `ContainsWitness` tie it to an occurrence at an offset, in both directions. |
| JsText.ContainsAt | app/components/CompaniesTable.js:22 | A text contains every piece found at a position in it. |
| JsText.ContainsMiddle | app/components/CompaniesTable.js:22 | `a + b + c` contains `b`. |
| JsText.ContainsWitness | app/components/CompaniesTable.js:22 | When a text contains a piece, there is a position where the piece occurs. |
| JsText.ContainsTransitive | app/components/CompaniesTable.js:22 | When a contains b and b contains c, a contains c. |
| JsText.SplitSpaces | app/api/enrich/route.js:128 | `split(/\s+/)` gives at least one part, and no part contains white space. `SplitSpacesWeave` and `SplitSpacesOfWeave` state exactly which parts. |
| JsText.SplitSpacesContent | app/api/enrich/route.js:128 | The parts, put together, are exactly the non-white-space characters of the text. |
| JsText.SplitSpacesChars | app/api/enrich/route.js:127-128 | Every character of every part is one of the text's non-white-space characters. |
| JsText.IndexOf | app/api/enrich/route.js:101 | Gives the first occurrence of a character, or the length when there is none. |
| JsText.IndexOfAfter | app/api/enrich/route.js:101 | In `a + "." + b` with no dot in `a`, the first dot is right after `a`. |
| JsText.Split | app/api/enrich/route.js:101 | `split(".")` gives at least one part, and no part contains the separator. The first part is the text up to the first separator, or all of it. |
| JsText.TrimWordThen | app/api/enrich/route.js:96 | Trimming a word, a space and a text that does not start with white space trims only the end of that text. |
| JsText.TrimLeadSpace | app/api/enrich/route.js:96 | A leading space makes no difference to `trim()`. |
| JsText.SplitHead | app/api/enrich/route.js:128 | A word followed by a run of white space is the first part of `split(/\s+/)`; the rest is split after the run. |
| JsText.SplitSpacesOfWeave | app/api/enrich/route.js:128 | Words without white space, only the first and last possibly empty, put together with non-empty runs of white space between them: `split(/\s+/)` gives back exactly those words. |
| JsText.SplitSpacesWeave | app/api/enrich/route.js:128 | Every text is such words put together with such runs, and the words are the parts `split(/\s+/)` gives. With `SplitSpacesOfWeave`, this characterises `split(/\s+/)` completely. |
| JsText.SplitSpacesOfJoin | app/api/enrich/route.js:128 | Splitting words joined by single spaces gives back the words. |
| JsText.CollapseStep | app/api/enrich/route.js:96 | The replacement keeps the first word and turns the white-space run after it into one space. |
| JsText.CollapseIsJoin | app/api/enrich/route.js:96 | `replace(/\s+/g, " ")` equals the parts of `split(/\s+/)` joined by single spaces. |
| JsText.SplitJoinThen | app/api/enrich/route.js:127-128 | Splitting non-empty words joined by single spaces, then a space and more text, gives the words first and then the parts of the rest. |
| JsText.JoinStart | app/components/CompaniesTable.js:220 | A `join` starts with its first piece. |
| JsText.Join | app/components/CompaniesTable.js:220 | `join(sep)`. It has no contract of its own; `JoinStart` states how a join begins. |
| Sequences.Filter | app/lists/page.js:67-68 | `filter` keeps exactly the elements that pass the test, in their original order. |
| Sequences.FilterCons | app/lists/page.js:67-68 | `filter` on a non-empty array keeps or drops the first element and then filters the rest. |
| Sequences.FilterPartition | app/lists/page.js:67-68 | Filtering with a test and with its negation splits the elements between the two results, with every repeat accounted for. |
| Sequences.Dedup | app/api/enrich/route.js:131 | `Array.from(new Set(xs))` has no duplicates and holds the same elements. The first element of the input stays first. The result is never longer than the input. |
| Sequences.DedupOrder | app/api/enrich/route.js:131 | The values of `Array.from(new Set(xs))` come out in the order of their first occurrence in the input. |
| Sequences.FirstIndex | app/api/enrich/route.js:131 | Gives the position of the first occurrence of a value. |
| Sequences.FirstIndexInPrefix | app/api/enrich/route.js:131 | A value that occurs in a prefix has its first occurrence there, before the prefix ends. |
| Sequences.OrderFromPrefix | app/api/enrich/route.js:131 | An order of first occurrence in a prefix remains one in the whole input. The next value may be appended when it is new. |
| Sequences.ClampIndex | app/components/CompaniesTable.js:40 | An index is clamped to the length. An index already in range is kept. |
| Sequences.Slice | app/components/CompaniesTable.js:40 | `slice(start, end)` gives the elements from the clamped start up to the clamped end, and nothing when the end comes first. With in-range indices this is exactly `xs[start..end]`. |
| UriComponent.Utf8 | app/saved/page.js:85 | A character is encoded as one to four bytes. It takes one byte exactly when it is ASCII. |
| UriComponent.Escape | app/saved/page.js:85 | A byte becomes `%` followed by two upper-case hexadecimal digits. |
| UriComponent.EscapeValue | app/saved/page.js:85 | The two digits of an escape are the byte's high and low hexadecimal digits, so reading them back gives the byte. |
| UriComponent.Utf8RoundTrip | app/saved/page.js:85 | Decoding the UTF-8 bytes of a character gives its code point back. |
| UriComponent.Utf8Value | app/saved/page.js:85 | Decodes one to four UTF-8 bytes. It has no contract of its own; it is the reference for `Utf8RoundTrip`. |
| UriComponent.HexValue | app/saved/page.js:85 | The value of a hexadecimal digit. It has no contract of its own; it is the reference for `EscapeValue`. |
| UriComponent.EscapeAll | app/saved/page.js:85 | Every byte becomes three characters, each a `%` or a hexadecimal digit. |
| UriComponent.EncodeChar | app/saved/page.js:85 | An unreserved character is kept. Any other character becomes escapes that start with `%`. |
| UriComponent.Encode | app/saved/page.js:85 | `encodeURIComponent` never shortens its input. |
| UriComponent.EncodedCharsOnly | app/saved/page.js:85 | The encoded text contains only unreserved characters and `%` escapes. |
| UriComponent.EncodeUnreserved | app/saved/page.js:85 | A text made only of unreserved characters is encoded as itself. |
| JsNumbers.NatToString | app/components/CompanyProfileClient.js:9 | A natural number is written as one or more decimal digits. |
| JsNumbers.NatToStringRoundTrip | app/components/CompanyProfileClient.js:9 | Reading the digits back gives the number. |
| JsNumbers.NatToStringInjective | app/components/CompanyProfileClient.js:9 | Different numbers are written differently. |
| JsNumbers.IntToString | app/components/CompanyProfileClient.js:9 | The text is not empty, and it starts with `-` exactly when the number is negative. |
| JsNumbers.IntToStringInjective | app/components/CompanyProfileClient.js:9 | Different integers are written differently. |

## Left out

- The network request is an opaque parameter. This covers the `AbortController`, the
  15-second timer, the request headers, `Response.json` and `console.error`.
- `new URL(...)` and its serialisation are a parameter that can fail. The model reads
  only `protocol`, `hostname` and the serialisation.
- A thrown error's `message` is modelled as a string, with "" for a missing or falsy
  one. A non-string message is not modelled.
- `req.json()` is modelled by its outcome: unreadable, `null`, or a value with the
  `website` property it has.
- Numbers are modelled as integers. A fractional company id or HTTP status is not
  modelled.
- `localStorage`, `JSON.parse` and `JSON.stringify` are left out. Each stored entry is a
  typed field. A stored entry that `JSON.parse` rejects is not modelled.
- Writes to `localStorage` from other tabs are not modelled as events. A stored field may
  still disagree with the page's state when a method is called. Only `Previous` and `Next`
  require `Valid()`.
- The server-rendering branches (`typeof window === "undefined"`) are left out, because
  the initialisers run in the browser.
- JsText.Lower, JsText.LowerAt, CompaniesTable.Query, CompaniesTable.Matches and CompaniesTable.IndustryBadgeClasses lower-case ASCII letters only. JavaScript's `toLowerCase` also lower-cases other letters.
- In `onSearch`, `URLSearchParams` and `router.replace` are left out. They only mirror
  the search in the address bar.
- All JSX rendering is left out: the result counts, the "disabled" states of buttons,
  the insight cards and the SVG markup around the sparkline path.
- The profile page's fixed enrichment card texts are placeholder copy and are not
  modelled.
- EnrichHeuristics.ResultText: the proofs state the 23 lines before `join("\n")`. They do
  not state that splitting the joined text on line feeds gives these lines back. That
  would not hold for a warning or URL that itself contains a line feed.
