# freelancer-cv-matcher, modelled in Dafny

freelancer-cv-matcher scrapes project listings from Freelancer.com, cleans them into a table of
project records, reads a CV (PDF or DOCX) into a single profile text, ranks the projects
against that profile and lets the user filter the ranked results in a Streamlit app. This
project models that pipeline with its foreign engines abstracted away and proves what each
stage promises about the records.

- `wrappers.dfy` holds `Option` and `Result`.
- `text.dfy` holds the Python string operations the code relies on, each proved against an
  independent definition:
  - `strip`, `split`, `join` and `lower`;
  - substring search;
  - the whitespace collapse `re.sub(r"\s+", " ", s).strip()`, proved to equal the words of
    `s` joined by single spaces;
  - `str.replace`;
  - decimal digits.
- `seqs.dfy` holds filter, map, first-occurrence de-duplication and subsequence, with their
  lemmas.
- `projects.dfy` defines the project record and the table: the set of columns a data frame
  has plus its rows. A NaN cell is `None`.
- `clean_projects.dfy` models `clean_projects` (`src/processing/clean_projects.py`) as a
  stage-by-stage method, proved equal to a row-wise definition. The lemmas cover the column
  check, the trimmed non-empty fields, the blocklist, the optional defaults, the
  format-agnostic skills parser, `match_text`, URL uniqueness with first occurrence kept,
  order preservation and idempotence.
- `freelancer_scraper.dfy` models `src/scraping/freelancer_scraper.py`:
  - A card answers CSS selector lookups with the elements it holds. A page is what the browser
    shows after a URL loads: whether each wait succeeded and what the card selectors find.
  - A `Driver` class records the URLs loaded and whether it has been quit.
  - Modelled operations: `_clean_text`, the safe lookups, `extract_project_data` with its
    primary/fallback selectors, the budget regex, the bids parse, the page loop of
    `scrape_category`, the category URL and the de-duplication in `scrape_projects`.
- `cv_text.dfy` models `src/cv_parser/cv_text.py`. A file is what the document library reads
  from it: the text of each PDF page, or of each DOCX paragraph. The file system is a map from
  path to file. `Path.suffix` is modelled on `/`-separated paths.
- `tfidf_matcher.dfy` models `match_projects_tfidf` (`src/matching/tfidf_matcher.py`). The
  TF-IDF engine is an analyser (a text's terms) plus an opaque similarity function. The
  model covers the column check, the empty-vocabulary failure of fitting, the corpus, column
  defaulting, the sort by score, `head(top_k)` and the projection.
- `app.dfy` models two parts of `app.py`: the suffix check and path naming of
  `save_uploaded_cv`, and the three result filters in `main`.

Where the documentation and the code disagree, the model follows the code:
- A NaN title, description or url becomes the string `"nan"` before the empty-row drop, so such a row
  survives cleaning.
- `head(k)` with a negative `k` keeps all rows but the last `-k`. It does not return an empty table.
- An empty table, or one whose texts hold only stop words and one-letter tokens, makes
  `fit_transform` raise `ValueError` (empty vocabulary). It does not give an empty result.
- `sort_values` is not stable, so the order of equal scores is not claimed.
- In `extract_project_data` the title text, its `href` and the tag texts are read outside any
  `try`. A failure there is not absorbed per card.

## Model

| member | source | states |
|---|---|---|
| CleanProjects.FirstMissingFrom | src/processing/clean_projects.py:17-20 | no index exactly when every required column from `i` on exists; otherwise the first absent one |
| CleanProjects.MissingColumnFails | src/processing/clean_projects.py:17-20 | cleaning fails exactly when one of title, description, skills, url is absent, naming the first absent one in that order |
| CleanProjects.CleanProjects | src/processing/clean_projects.py:5-71 | the stage-by-stage pipeline (check, strip, drop, blocklist, defaults, skills, derived text, de-dup) yields the row-wise result `Cleaned` |
| CleanProjects.CleanRowsIsMapFilter | src/processing/clean_projects.py:23-66 | before de-duplication the result is the rows that pass the filters, each cleaned, in input order |
| CleanProjects.CleanRowIsWellCleaned | src/processing/clean_projects.py:23-66 | a row that passes the filters comes out with trimmed non-empty title, description and url, no blocked phrase, a skills list, its derived texts and its optional fields filled |
| CleanProjects.CleanRowFills | src/processing/clean_projects.py:40-47 | budget defaults to "Not specified", time_left to "Unknown", bids_count to 0, each only when its column exists; present values are kept |
| CleanProjects.CleanedRowsWellCleaned | src/processing/clean_projects.py:23-69 | every output row is well cleaned (so no blocked description survives) and output URLs are pairwise distinct |
| CleanProjects.CleanedKeepsFirst | src/processing/clean_projects.py:69 | of the rows sharing a URL, the first that passes the filters is the one in the output |
| CleanProjects.CleanedIsSubsequence | src/processing/clean_projects.py:28-69 | the output is the cleaned form of an order-preserving subsequence of the input rows |
| CleanProjects.TrimTextFixed | src/processing/clean_projects.py:23-25 | trimming leaves a cleaned row unchanged |
| CleanProjects.FillOptionalFixed | src/processing/clean_projects.py:40-47 | defaulting leaves filled optional fields unchanged |
| CleanProjects.DerivedFixed | src/processing/clean_projects.py:50-66 | re-deriving the skills list, skills_text and match_text of a cleaned row reproduces them |
| CleanProjects.CleanRowFixed | src/processing/clean_projects.py:23-66 | a cleaned row passes every filter again and is left as it is |
| CleanProjects.CleanRowsFixed | src/processing/clean_projects.py:23-66 | on cleaned rows the filter-and-clean stage is the identity |
| CleanProjects.RequiredPresent | src/processing/clean_projects.py:17-20 | the column check still passes once the two derived columns are added |
| CleanProjects.CleanedIdempotent | src/processing/clean_projects.py:5-71 | cleaning a cleaned table gives the same table (same columns, rows and URLs) |
| CleanProjects.BracketParse | src/processing/clean_projects.py:56-58 | a bracketed cell loses its brackets, is split at commas, blank parts dropped, the rest unquoted |
| CleanProjects.UnquotePadded | src/processing/clean_projects.py:58 | stripping spaces then `'` then `"` from a padded, quoted skill name gives the name, for either quote |
| CleanProjects.EmptySkillsParsed | src/processing/clean_projects.py:55-60 | an empty cell parses to no skills |
| CleanProjects.EmptyBracketParsed | src/processing/clean_projects.py:56-59 | `[]` parses to no skills |
| CleanProjects.PlainSkillsParsed | src/processing/clean_projects.py:60 | comma-separated names, with any whitespace after each comma, parse back to the names |
| CleanProjects.PlainSkillsAreNames | src/processing/clean_projects.py:60 | every item of a plain parse is non-empty, trimmed and comma-free |
| CleanProjects.BracketSkillsParsed | src/processing/clean_projects.py:56-59 | Python list syntax with either quote parses back to the names |
| CleanProjects.SkillsFormatAgnostic | src/processing/clean_projects.py:50-62 | a list, its plain comma form and its list-syntax form all yield the same names |
| CleanProjects.MatchTextPrefix | src/processing/clean_projects.py:66 | the stripped match text starts with title, a space and description |
| CleanProjects.MatchTextExact | src/processing/clean_projects.py:66 | with a trimmed skills text, match_text is title, description and (if non-empty) skills text separated by single spaces |
| CleanProjects.MatchTextShape | src/processing/clean_projects.py:65-66 | the same for every cleaned row's own fields |
| CleanProjects.BlockedPhraseDetected | src/processing/clean_projects.py:32-37 | a description containing a blocked phrase in any mix of ASCII case is blocked |
| FreelancerScraper.CleanText | src/scraping/freelancer_scraper.py:55-59 | None stays None; blank text becomes None; otherwise the result is non-empty, single-spaced, trimmed and has the input's words |
| FreelancerScraper.CleanTextIdempotent | src/scraping/freelancer_scraper.py:55-59 | cleaning twice equals cleaning once |
| FreelancerScraper.FindElement | src/scraping/freelancer_scraper.py:64 | a lookup finds an element exactly when the selector matches, and then the first match |
| FreelancerScraper.SafeFindElementText | src/scraping/freelancer_scraper.py:62-68 | the default when nothing matches or the text cleans to nothing, else the cleaned text of the first match |
| FreelancerScraper.AmountAt | src/scraping/freelancer_scraper.py:143 | `\d[\d,]*` matches exactly at a digit and runs to the end of the amount characters |
| FreelancerScraper.MoneyAt | src/scraping/freelancer_scraper.py:143 | a match starts only at a currency sign, ends after an amount character at a maximal run, and exists whenever an amount follows the sign |
| FreelancerScraper.MoneySearchFromFound | src/scraping/freelancer_scraper.py:143 | a search result is the match starting at some position |
| FreelancerScraper.MoneySearchFromNone | src/scraping/freelancer_scraper.py:143 | no result means no position starts a match |
| FreelancerScraper.MoneySearchLeftmost | src/scraping/freelancer_scraper.py:143 | the search returns the match at the leftmost position where one starts |
| FreelancerScraper.MoneySearch | src/scraping/freelancer_scraper.py:143-144 | a result starts with a currency sign and ends with an amount character |
| FreelancerScraper.MoneyAtSingle | src/scraping/freelancer_scraper.py:143 | at a sign, an optional space and a maximal amount not followed by `\s?-\s?<digit>`, the match ends with that amount |
| FreelancerScraper.MoneyAtRange | src/scraping/freelancer_scraper.py:143 | at a sign, an optional space, an amount, an optional space, a dash, an optional space and a maximal amount, the match ends with the second amount |
| FreelancerScraper.RangeAtShift | src/scraping/freelancer_scraper.py:143 | whether a `\s?-\s?<digit>` tail follows a position depends only on the text after it |
| FreelancerScraper.MoneySingle | src/scraping/freelancer_scraper.py:143-144 | a sign, an optional space and one amount, after text without signs, is found whole when what follows is not an amount character and does not start `\s?-\s?<digit>` (so "$50 USD" yields "$50") |
| FreelancerScraper.MoneyRange | src/scraping/freelancer_scraper.py:143-144 | a range `<sign>\s?<low>\s?-\s?<high>` after text without signs is found whole (so "$250 - 750" yields itself) |
| FreelancerScraper.Budget | src/scraping/freelancer_scraper.py:136-147 | None without a price element; otherwise the money match when there is one, else the cleaned raw text; None exactly when there is no element or no match and blank text |
| FreelancerScraper.FirstDigitsFrom | src/scraping/freelancer_scraper.py:166 | none exactly when no digit follows; otherwise the maximal digit run at the first digit |
| FreelancerScraper.FirstDigitsLeftmost | src/scraping/freelancer_scraper.py:166 | the digit search returns the run at the first digit |
| FreelancerScraper.BidsCountDefined | src/scraping/freelancer_scraper.py:158-169 | the count is None exactly when the text is absent or has no digit, and is never negative |
| FreelancerScraper.BidsCountOfDecimal | src/scraping/freelancer_scraper.py:165-167 | a number written in decimal inside the entry text reads back as itself |
| FreelancerScraper.Description | src/scraping/freelancer_scraper.py:116-121 | the primary selector's text when it has one, else the fallback's; None exactly when both are absent or blank |
| FreelancerScraper.TagTextsAreCleanedTags | src/scraping/freelancer_scraper.py:128-133 | the skills are the cleaned texts of the non-blank tags, in card order |
| FreelancerScraper.TagTextsClean | src/scraping/freelancer_scraper.py:128-133 | every kept skill is non-empty, single-spaced and trimmed |
| FreelancerScraper.CollectSkills | src/scraping/freelancer_scraper.py:128-133 | the tag loop builds the tag-text list |
| FreelancerScraper.ExtractedShape | src/scraping/freelancer_scraper.py:82-171 | no record exactly when no title element, a blank title or an empty href; otherwise the title is the cleaned link text, and url, platform, category, scrape time, skills, description, budget, time left and bids are what their readers give |
| FreelancerScraper.ExtractProjectData | src/scraping/freelancer_scraper.py:82-171 | the field-by-field extraction equals the record definition `Extracted` |
| FreelancerScraper.Driver.constructor | src/scraping/freelancer_scraper.py:214 | a new driver is open and has loaded nothing |
| FreelancerScraper.Driver.Get | src/scraping/freelancer_scraper.py:181 | records the URL; yields its page, or fails for a URL the site does not serve |
| FreelancerScraper.Driver.Quit | src/scraping/freelancer_scraper.py:223 | closes the driver and keeps its history |
| FreelancerScraper.PageUrlsDistinct | src/scraping/freelancer_scraper.py:178-179 | different page numbers give different page URLs |
| FreelancerScraper.PageUrls | src/scraping/freelancer_scraper.py:178-179 | one URL per page: the first is the category URL itself, and page k + 1 is `<url>/<k+1>` |
| FreelancerScraper.ExtractAllFromCards | src/scraping/freelancer_scraper.py:202-205 | every collected record comes from a card, and every card yielding a record contributes it |
| FreelancerScraper.ExtractCards | src/scraping/freelancer_scraper.py:202-205 | the card loop collects exactly the extracted records, in card order |
| FreelancerScraper.CategoryRunStops | src/scraping/freelancer_scraper.py:178-181 | after a load failure later pages change nothing |
| FreelancerScraper.CategoryRunStep | src/scraping/freelancer_scraper.py:178-205 | one more page loads its URL and fails exactly when the site does not serve it |
| FreelancerScraper.CategoryRunSkipsTimedOut | src/scraping/freelancer_scraper.py:183-195 | a served page whose two waits both time out adds no record, yet its URL is loaded and the run goes on |
| FreelancerScraper.CategoryRunVisits | src/scraping/freelancer_scraper.py:178-181 | pages 1, 2, ... are loaded in order; all of them on success; on failure the last loaded one is the unserved page reported |
| FreelancerScraper.CategoryRunPages | src/scraping/freelancer_scraper.py:178-179 | the loaded URLs are the first pages' URLs, all `n` on success |
| FreelancerScraper.CategoryRunLoads | src/scraping/freelancer_scraper.py:181 | every page before the last was served; a failure is at an unserved page, which it names |
| FreelancerScraper.CategoryRunVisitsOnce | src/scraping/freelancer_scraper.py:178-179 | no page is loaded twice |
| FreelancerScraper.ExtractAllScraped | src/scraping/freelancer_scraper.py:83-114 | every extracted record has the platform, its category, the run time, a clean title and a link |
| FreelancerScraper.CategoryRunScraped | src/scraping/freelancer_scraper.py:175-210 | every record of a category run is a scraped record of that category |
| FreelancerScraper.ScrapeCategory | src/scraping/freelancer_scraper.py:175-210 | the page loop's result and the driver's new history are those of `CategoryRun` over `max(max_pages, 0)` pages |
| FreelancerScraper.BaseUrlHasNoPattern | src/scraping/freelancer_scraper.py:219 | no `//jobs` starts inside the base URL |
| FreelancerScraper.CategoryUrlPlain | src/scraping/freelancer_scraper.py:219 | a suffix that makes no `//jobs` is appended after one slash |
| FreelancerScraper.CategoryUrlLeadingSlash | src/scraping/freelancer_scraper.py:219 | `/jobs/...` and `jobs/...` give the same URL |
| FreelancerScraper.LeadingPatternReplaced | src/scraping/freelancer_scraper.py:219 | the doubled slash before `jobs` is the only replacement made |
| FreelancerScraper.ScrapeRunStops | src/scraping/freelancer_scraper.py:217-223 | once a category fails the later ones are not scraped |
| FreelancerScraper.ScrapeRunScraped | src/scraping/freelancer_scraper.py:218-220 | every record of a run is a scraped record of one of the categories |
| FreelancerScraper.UniqueByUrlSpec | src/scraping/freelancer_scraper.py:225-234 | kept records have a non-empty URL, pairwise distinct URLs, input order, and every URL's first record is kept |
| FreelancerScraper.ScrapeRunUnique | src/scraping/freelancer_scraper.py:225-232 | on a run's records only duplicates are dropped |
| FreelancerScraper.DedupStep | src/scraping/freelancer_scraper.py:228-232 | a record is kept exactly when it has a URL not yet seen |
| FreelancerScraper.DedupByUrl | src/scraping/freelancer_scraper.py:226-232 | the `seen`-set loop computes the first-seen de-duplication |
| FreelancerScraper.ScrapeProjects | src/scraping/freelancer_scraper.py:213-234 | the driver is quit on every path, its history is the run's, and the result is the run's failure or its de-duplicated records |
| CvText.CleanText | src/cv_parser/cv_text.py:11-13 | single-spaced and trimmed, with the input's words; empty exactly for blank input |
| CvText.CleanTextIsWords | src/cv_parser/cv_text.py:11-13 | the cleaned text is the words joined by single spaces |
| CvText.CleanTextIdempotent | src/cv_parser/cv_text.py:11-13 | cleaning twice equals cleaning once |
| CvText.BuildProfileText | src/cv_parser/cv_text.py:51-56 | single-spaced and trimmed, with the CV's words |
| CvText.BuildProfileTextIdempotent | src/cv_parser/cv_text.py:51-56 | building a profile from a profile changes nothing |
| CvText.LastIndexOf | src/cv_parser/cv_text.py:42 | the position of the last occurrence, or -1 |
| CvText.FileName | src/cv_parser/cv_text.py:42 | a file name holds no slash |
| CvText.FileNameInDirectory | src/cv_parser/cv_text.py:42 | the name of `dir/name` is `name` |
| CvText.Suffix | src/cv_parser/cv_text.py:42 | empty, or a dot followed by at least one character with no further dot or slash |
| CvText.SuffixOfName | src/cv_parser/cv_text.py:42 | the suffix of `stem.ext` is `.ext`, with or without a directory |
| CvText.PdfPartsAreNonBlankPages | src/cv_parser/cv_text.py:21-26 | the parts are the non-blank page texts, a page without text read as "" |
| CvText.JoinedTextIsWords | src/cv_parser/cv_text.py:28 | joining the non-blank parts by newline and cleaning gives all their words, single-spaced |
| CvText.PdfTextIsAllWords | src/cv_parser/cv_text.py:21-28 | a PDF's text is the words of all its pages, in page order |
| CvText.ExtractTextFromPdf | src/cv_parser/cv_text.py:16-28 | a missing file fails before any reading; otherwise the page loop yields that text |
| CvText.ExtractTextFromDocx | src/cv_parser/cv_text.py:31-38 | a missing file fails; otherwise the words of all paragraphs, in order |
| CvText.ExtractCvText | src/cv_parser/cv_text.py:41-48 | `.pdf` and `.docx` (any case) go to their readers; any other suffix fails as unsupported |
| TfidfMatcher.Corpus | src/matching/tfidf_matcher.py:30 | one text per row, NaN read as "" |
| TfidfMatcher.FillRowUpToAll | src/matching/tfidf_matcher.py:40-42 | after the column loop every row is its filled form |
| TfidfMatcher.FillMissingColumns | src/matching/tfidf_matcher.py:39-42 | every output column exists afterwards; missing ones read "" (0 for bids_count), present ones are kept |
| TfidfMatcher.InsertDesc | src/matching/tfidf_matcher.py:44 | insertion keeps the list sorted best first and adds exactly the element |
| TfidfMatcher.SortDesc | src/matching/tfidf_matcher.py:44 | sorted by score descending and a permutation of the input |
| TfidfMatcher.HeadLength | src/matching/tfidf_matcher.py:44 | `head` never keeps more rows than there are |
| TfidfMatcher.ScoredRows | src/matching/tfidf_matcher.py:36-42 | row i carries the engine's score for row i of the corpus and its filled columns |
| TfidfMatcher.MatchProjectsTfidf | src/matching/tfidf_matcher.py:22-45 | the call computes `Matched`: column check, vocabulary check, score, fill, sort, cut, project |
| TfidfMatcher.HeadOfSorted | src/matching/tfidf_matcher.py:44 | of a list sorted best first, nothing after the first h scores above anything in it |
| TfidfMatcher.MatchedLength | src/matching/tfidf_matcher.py:27-44 | fails exactly when match_text is missing or the analyser finds no term in any row, so always for an empty table; otherwise returns min(top_k, n) rows for top_k ≥ 0 and max(n + top_k, 0) for negative top_k |
| TfidfMatcher.MatchedBestFirst | src/matching/tfidf_matcher.py:44 | output scores never increase |
| TfidfMatcher.MatchedRowsFromInput | src/matching/tfidf_matcher.py:36-45 | each output row is an input row with its own score and filled columns, projected; no row appears more often than in the input |
| TfidfMatcher.MatchedIsTop | src/matching/tfidf_matcher.py:44 | no row left out scores above a returned one |
| TfidfMatcher.MatchedAllWhenCovering | src/matching/tfidf_matcher.py:44 | when top_k covers every row, every row is returned |
| App.SaveUploadedCv | app.py:35-44 | refused exactly when the lower-cased suffix is not .pdf or .docx; otherwise saved as `inputs/my_cv` plus that suffix |
| App.SavedPathSuffix | app.py:41 | the saved path's suffix is the one it was built with |
| App.SavedCvKeepsFormat | app.py:37-41 | a saved CV's own suffix is the upload's lower-cased suffix, one the CV reader accepts |
| App.DisplayBids | app.py:306-310 | the shown bids are the count, or 0 when missing, the value the bids filter compared |
| App.FilterResults | app.py:257-261 | the three filters in turn keep exactly the rows that survive all three that apply |
| App.FilteredResults | app.py:257-261 | survivors keep their order and nothing is added; each meets the score, bids and category filters in force; every row meeting them survives |

## Left out

- The browser: Selenium set-up, the waits, `find_element` and `driver.get` are a page and card oracle (`Page`, `Card`). A card lookup that raises is a selector with no match. Reading an element's text and `href` is assumed to succeed.
- `driver.get` fails only for a URL the site map does not serve. Timeouts are the page's two readiness flags.
- `time.sleep` and `random.uniform` pacing have no correctness content.
- `datetime.now()` is the `stamp` parameter.
- TF-IDF fitting and cosine similarity are floating-point work inside scikit-learn. Tokenisation and the English stop-word list are the `Analyzer` parameter, and the scores are the `Similarity` parameter. The model covers the column check, the empty-vocabulary failure, corpus, defaults, sort, cut and projection around them.
- pdfplumber and python-docx parsing: a file is its sequence of page texts or paragraph texts.
- `Path.exists` is membership in a path-to-file map. `Path.suffix` and `Path.name` are modelled on `/`-separated paths. Other pathlib normalisation (Windows separators, `..`) is not part of this model.
- The file write in `save_uploaded_cv` and `ensure_dirs`: only the validation and the chosen path are modelled.
- `load_projects` and all CSV and Excel I/O.
- The Streamlit UI, CSS, plots, metrics, Excel download and HTML cards. The only part of the cards modelled is the bids value shown (`DisplayBids`).
- `str.contains` takes its pattern as a regular expression. Here it is a plain substring search, which is exact for the blocked phrases. A category filter holding regex metacharacters is not modelled.
- Case folding is ASCII only, and `\d` is the ASCII digits. `\s` is Python's full Unicode whitespace set (`IsSpace`).
- An object cell holding a Python `None` becomes "None" under `astype(str)`, not "nan". The frames here are read from CSV, where a missing value is NaN, so only NaN is modelled.
- `astype(int)` on a non-numeric `bids_count` raises in the source. The model's `bids_count` is numeric or missing.
- The `TfidfMatcher` class that `main` calls is not part of this model. The filters act on `match_projects_tfidf`'s rows, and `hasBidsColumn` says whether the `bids_count` column is present.
- Data frames are values: "the input is not modified" holds because nothing is mutated in place. Aliasing of frames is not modelled.
- The `score` column is assigned before the column loop, so the loop never fills it. The model's loop covers the other six output columns.
- A quoted empty item such as `''` in list syntax survives as the empty skill, as in the source. The round-trip lemmas are stated for non-empty skill names.
- TfidfMatcher.SortDesc: states sortedness and permutation only. The order among equal scores is not claimed, because `sort_values` is not stable.
- TfidfMatcher.HeadLength: its own contract gives only the upper bound. The exact lengths are in `MatchedLength`.
- The `scripts/` command-line wrappers, and `setup_driver`'s browser options.
