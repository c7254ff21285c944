# pgconf-watch: the conference differ, modelled in Dafny

pgconf-watch watches the PostgreSQL conference news page. On each run it
does five things:

- extracts one record per conference from the page's text lines;
- drops records whose name has been seen before and gives each one an id slug;
- compares the result with the previous snapshot by id;
- writes an issue report listing what was added, removed or changed;
- groups every current conference into a bucket: call for papers, schedule
  published, active or other.

This project models the pure core of `scripts/check_conferences.py`:

- the line-scanning extractor in `fetch_conferences`;
- the deduplication loop at the end of `fetch_conferences`;
- `compare_conferences`;
- `create_issue_body`.

It proves properties of each.

Modules, one file each:

- `Text` (`text.dfy`) holds the string operations the script borrows from
  Python: `str.lower`, `in` on strings, `str.strip` and `any(w in s for w in
  words)`.
- `Records` (`records.dfy`) holds the record and conference datatypes.
- `Keywords` (`keywords.dfy`) holds the fixed vocabularies and line tests of
  the extractor. The date test is the month-name regular expression.
- `Extractor` (`extractor.dfy`) holds the scan loop as a method, and the same
  scan as a fold over a two-state datatype (`Idle`/`InSection`). It also holds
  an independent description, `Extract`: drop the noise lines, drop
  everything before the first trigger line, then cut at each trigger line. A
  lemma proves the scan equals `Extract` on the lines the page actually
  yields.
- `ExtractorFacts` (`extractor_facts.dfy`) holds what follows from `Extract`:
  - the records lay the kept lines end to end;
  - the names are exactly the trigger lines;
  - every field holds the last detail line that passes its test.
- `Dedup` (`dedup.dfy`) holds the id slug and the first-occurrence
  deduplication loop.
- `Differ` (`differ.dfy`) indexes both snapshots by id (the last record
  wins) and collects the added, removed and modified records.
- `Report` (`report.dfy`) holds the issue body as a list of structured lines
  and the bucketing of the current records.

The line tests are generic in the extractor: the `Tests` record carries them
as function values, and `Script` holds the script's own tests. This keeps the
extractor's structural proofs apart from string matching.

Four behaviours of the code are easy to misread, and the model follows the
code in each:

- **Field extraction.** `parsed_date`, `location` and `status` hold the LAST
  detail line that passes their test, because each later match overwrites the
  field (`scripts/check_conferences.py:59-66`). An earlier match does not win.
- **The id slug.** It replaces each single space with `_`
  (`scripts/check_conferences.py:86`). It does not collapse runs of spaces,
  and it leaves tabs and hyphens as they are. `Dedup.SlugDoubleSpace` shows
  that two spaces give two underscores.
- **Blank lines.** The line list handed to the scan never holds a blank line,
  because `scripts/check_conferences.py:31` filters them out. So the
  blank-line branch (`scripts/check_conferences.py:69-73`) is dead on real
  input. The method still models that branch (`ExtractorFacts.BlankLineCloses`),
  and the equality with `Extract` is stated for non-blank, stripped lines.
- **The active bucket.** It uses the words `pgconf`, `pgday` and
  `postgresql conference` (`scripts/check_conferences.py:200`), not the
  extractor's four trigger words. `nordic pgday` contains `pgday`, so the two
  lists accept the same names.

## Model

| member | source | states |
|---|---|---|
| Extractor.ExtractConferences | scripts/check_conferences.py:33-77 | the scan loop, blank-line branch included, yields the fold `Scanned(Script, lines)`; when every line is non-empty and stripped, it yields `Extract(Script, lines)`: noise dropped, preamble dropped, cut at each trigger line |
| Extractor.Step | scripts/check_conferences.py:37-73 | one pass of the loop body: a noise line changes nothing; a trigger line emits the open record and opens a new one named by the line; a detail line inside a section is added to the open record; a blank line inside a section emits the record and leaves the section; any other line is ignored |
| Extractor.Scanned | scripts/check_conferences.py:33-77 | the records the loop emits over all lines, followed by the record still open at the end |
| Extractor.ScanMatchesExtract | scripts/check_conferences.py:36-77 | when every line is non-empty and is its own name, the state machine's output equals the cut-at-triggers description, for any line tests |
| Extractor.RunSkipsNoise | scripts/check_conferences.py:38-39 | noise lines never change the scan's state: scanning the lines equals scanning them with the noise removed |
| Extractor.DropNoiseKeeps | scripts/check_conferences.py:38-39 | the kept lines are exactly the input lines that are not noise |
| Extractor.DropPreambleDrops | scripts/check_conferences.py:42-56 | the lines before the first trigger line are dropped (detail lines are ignored outside a section), and what remains is a suffix that starts with a trigger line or is empty |
| Extractor.LeadingDetailsRun | scripts/check_conferences.py:42-56 | a record's details run up to the next trigger line and no further |
| Extractor.LastMatchIsLast | scripts/check_conferences.py:59-66 | a field is None exactly when no detail line passes its test; otherwise it holds a passing line after which no line passes |
| Extractor.AddDetailWellFormed | scripts/check_conferences.py:54-66 | appending a detail line keeps every field equal to the last match over the details |
| Extractor.NormalizedSelfNamed | scripts/check_conferences.py:31 | a non-empty stripped line is its own `strip()`, so the trigger line is the record's name |
| ExtractorFacts.ExtractLayout | scripts/check_conferences.py:36-77 | writing out each record's name and then its details gives back exactly the non-noise lines from the first trigger line on: nothing is lost, reordered or duplicated |
| ExtractorFacts.ExtractNames | scripts/check_conferences.py:42-53 | the record names are exactly the non-noise trigger lines, in order, one record per trigger line |
| ExtractorFacts.ExtractNamesKept | scripts/check_conferences.py:42-53 | every name is a non-noise input line that passes the trigger test |
| ExtractorFacts.ExtractDetailsKept | scripts/check_conferences.py:54-56 | every detail is a non-noise input line |
| ExtractorFacts.ExtractRecords | scripts/check_conferences.py:42-66 | every extracted record is well formed (fields are last matches), its name is a kept trigger line, and its details are kept lines that are not trigger lines |
| ExtractorFacts.TriggersIn | scripts/check_conferences.py:42 | every trigger line collected comes from the input and passes the trigger test |
| ExtractorFacts.BlankLineCloses | scripts/check_conferences.py:69-73 | a blank line inside a section emits the open record and leaves the section |
| Keywords.IsNoise | scripts/check_conferences.py:38 | a noise line is one whose lowered text contains `navigation`, `search`, `menu` or `header` |
| Keywords.IsTrigger | scripts/check_conferences.py:42 | a trigger line is one whose lowered text contains `pgconf`, `pgday`, `postgresql conference` or `nordic pgday` |
| Keywords.IsDateLine | scripts/check_conferences.py:59 | a date line is one in which a month name, in any case, starts at a word boundary |
| Keywords.IsLocationLine | scripts/check_conferences.py:62 | a location line is one whose lowered text contains `location:`, `hotel`, `city` or `country` |
| Keywords.IsStatusLine | scripts/check_conferences.py:65 | a status line is one whose lowered text contains `call for papers`, `registration`, `schedule` or `published` |
| Keywords.MonthFromIff | scripts/check_conferences.py:59 | the date test holds exactly when a month name starts the line or starts after a non-word character (the `\b` boundary) |
| Keywords.MonthFromContainsAny | scripts/check_conferences.py:59 | a line passing the date test contains a month name |
| Text.ContainsAnyIff | scripts/check_conferences.py:38 | `any(w in s for w in words)` holds exactly when some word of the list occurs in s |
| Text.Lower | scripts/check_conferences.py:38 | `str.lower` keeps the length and lowers each character |
| Text.LowerNormalises | scripts/check_conferences.py:38 | a lowered string has no upper-case letter, and lowering it again changes nothing |
| Text.Strip | scripts/check_conferences.py:47 | `str.strip` yields a stripped string no longer than its input, and leaves a stripped string unchanged |
| Text.StripSlice | scripts/check_conferences.py:47 | `str.strip` returns one contiguous slice of its input, and everything before and after that slice is whitespace |
| Text.TrimStartDropsSpaces | scripts/check_conferences.py:47 | only whitespace is removed from the front |
| Text.TrimEndDropsSpaces | scripts/check_conferences.py:47 | only whitespace is removed from the back |
| Dedup.Scrub | scripts/check_conferences.py:86 | `re.sub(r'[^\w\s-]', '', name)` keeps only word characters, whitespace and hyphens, and is no longer than its input |
| Dedup.Underscore | scripts/check_conferences.py:86 | `replace(' ', '_')` turns each space into `_` and leaves every other character and the length unchanged |
| Dedup.Slug | scripts/check_conferences.py:86 | the id is the name with disallowed characters removed, then stripped, spaces turned into `_`, and lowered, in that order |
| Dedup.DedupConferences | scripts/check_conferences.py:80-90 | the loop with its set of seen names yields the first record for each non-empty name, each with the slug of its name as id |
| Dedup.DedupSubsequence | scripts/check_conferences.py:83-88 | the output is an order-preserving subsequence of the input records, and each id is the slug of its record's name |
| Dedup.DedupUniqueNames | scripts/check_conferences.py:84 | the kept names are pairwise distinct and non-empty |
| Dedup.DedupKeepsFirst | scripts/check_conferences.py:84-87 | for every non-empty name in the input, the first record with that name is kept |
| Dedup.FirstIndicesExact | scripts/check_conferences.py:84-87 | the kept positions ascend, each is the first of its name, and every first occurrence is kept |
| Dedup.DedupStep | scripts/check_conferences.py:84-88 | at each position the seen-name test decides "first of its name": kept records and seen names grow by that record alone |
| Dedup.SlugShape | scripts/check_conferences.py:86 | a slug has only word characters, whitespace other than space, and hyphens; it has no upper-case letter and no surrounding whitespace |
| Dedup.SlugIdempotent | scripts/check_conferences.py:86 | slugging a slug changes nothing |
| Dedup.SlugOfClean | scripts/check_conferences.py:86 | for a stripped name of allowed characters, the slug lowers each character and turns each space into `_`, one for one |
| Dedup.SlugMatches | scripts/check_conferences.py:86 | an id built that way from a stripped clean name is its slug |
| Dedup.SlugExample | scripts/check_conferences.py:86 | "PGConf US 2025" has the slug "pgconf_us_2025" |
| Dedup.SlugDoubleSpace | scripts/check_conferences.py:86 | "PGDay  Paris" has the slug "pgday__paris": runs of spaces are not collapsed |
| Dedup.SlugIgnoresCase | scripts/check_conferences.py:86 | lowering the name first does not change its slug |
| Dedup.SlugIgnoresPunctuation | scripts/check_conferences.py:86 | removing the disallowed characters first does not change the slug |
| Dedup.SlugCollision | scripts/check_conferences.py:86 | a name with an upper-case letter and its lowered form are different names with the same slug |
| Dedup.DedupCollision | scripts/check_conferences.py:84-87 | two records whose names differ only in case are both kept, in order, under the same id: the ids of the output need not be unique |
| Dedup.DedupPair | scripts/check_conferences.py:84-87 | two records with different non-empty names are both kept, in order, each with the slug of its name |
| Dedup.ScrubLower | scripts/check_conferences.py:86 | removing disallowed characters commutes with lowering |
| Dedup.StripLower | scripts/check_conferences.py:86 | stripping commutes with lowering |
| Differ.ById | scripts/check_conferences.py:118-119 | the dict comprehension keyed by id: later records overwrite earlier ones with the same id |
| Differ.Changed | scripts/check_conferences.py:144-147 | two records differ when their details, date, location or status differ; the name and id are not compared |
| Differ.ByIdLastWins | scripts/check_conferences.py:118-122 | the id index has exactly the ids of the snapshot, and maps each id to the last record with that id |
| Differ.ByIdKeys | scripts/check_conferences.py:118-119 | each indexed record carries its own id |
| Differ.CollectIds | scripts/check_conferences.py:131-136 | the loop lists the stored record of each given id exactly once and nothing else |
| Differ.CollectChanged | scripts/check_conferences.py:139-152 | the loop lists a modification for exactly the shared ids whose date, location, status or details differ, each once, with the old and new records |
| Differ.CompareConferences | scripts/check_conferences.py:116-154 | added lists the new records whose ids are new, removed lists the old records whose ids are gone, and modified lists the shared ids whose compared fields differ; each id appears once |
| Differ.ModifiedEntries | scripts/check_conferences.py:139-152 | every modification names a shared id, its before and after are the two snapshots' records, they differ in a compared field, ids are distinct, and the ids are exactly the modified ids |
| Differ.IdenticalSnapshots | scripts/check_conferences.py:116-154 | comparing a snapshot with itself reports nothing |
| Differ.SwapSnapshots | scripts/check_conferences.py:116-154 | swapping old and new swaps added and removed, and keeps modified |
| Differ.OnlyRemoved | scripts/check_conferences.py:116-154 | against an empty new snapshot, a record is removed and nothing is added or modified |
| Differ.RenameNotModified | scripts/check_conferences.py:144-147 | a record whose only change is its name is not modified, because the name is not compared |
| Report.Join | scripts/check_conferences.py:194 | `' '.join(details)`: the details with one space between each two |
| Report.Classify | scripts/check_conferences.py:196-203 | the first bucket whose test passes: call for papers (in the lowered name or joined details), then schedule published (the name mentions `schedule` and `published` or `online`), then active (the name mentions an event word), else other |
| Report.GroupConferences | scripts/check_conferences.py:192-203 | the loop puts each record in the bucket `Classify` gives it, in input order |
| Report.InBucketMembers | scripts/check_conferences.py:192-203 | a record is in a bucket exactly when it is a current record classified into that bucket |
| Report.BucketsPartition | scripts/check_conferences.py:192-203 | every record falls in exactly one bucket: the four buckets together hold each record as often as the input does |
| Report.BucketsCount | scripts/check_conferences.py:184-203 | the four buckets together are as long as the total the report prints |
| Report.DetailCallForPapers | scripts/check_conferences.py:194-197 | one detail line mentioning "call for papers", in any case, puts the record in the call-for-papers bucket whatever its name |
| Report.JoinedContains | scripts/check_conferences.py:194 | a word found in one lowered detail is found in the lowered space-joined details |
| Report.RenderAdded | scripts/check_conferences.py:162-168 | the added section: nothing when none were added, else a heading and, per record, its name and its first five details |
| Report.RenderDetails | scripts/check_conferences.py:166-167 | one detail line per detail, in order |
| Report.AddedDetailsCapped | scripts/check_conferences.py:166 | an added record shows exactly its first five details (`details[:5]`), never more than five |
| Report.DetailLinesShow | scripts/check_conferences.py:166-167 | the detail lines show exactly the given details, in order |
| Report.RenderRemoved | scripts/check_conferences.py:170-174 | the removed section: nothing when none were removed, else a heading and one line per removed name |
| Report.RenderUpdates | scripts/check_conferences.py:176-180 | the updates section: nothing when none changed, else a heading and the new name of each change, with its note |
| Report.RemovedSectionListed | scripts/check_conferences.py:170-174 | the removed section names every removed record once, in order, and nothing else |
| Report.UpdatesSectionListed | scripts/check_conferences.py:176-180 | the updates section names every change once by its new name, in order, with one change note per change |
| Report.RenderBucket | scripts/check_conferences.py:205-227 | one bucket's listing: nothing for an empty bucket, else a heading, at most cap names and an "and N more" line |
| Report.BucketListing | scripts/check_conferences.py:205-227 | a listing names the bucket's first min(cap, size) records in order; it has an "and N more" line exactly when the bucket exceeds the cap, with N = size - cap, so shown plus N is the bucket's size; it has a heading exactly when the bucket is non-empty |
| Report.NameLinesListed | scripts/check_conferences.py:207-208 | the name lines list exactly the given records' names, in order |
| Report.CreateIssueBody | scripts/check_conferences.py:157-232 | the body is the title, the detection time, the three change sections, the total, the three capped bucket listings and the footer |
| Report.BodyHeadings | scripts/check_conferences.py:205-227 | the body shows a bucket heading for each non-empty bucket among call for papers, schedule published and active, in that order, and never one for other |
| Report.BodyListed | scripts/check_conferences.py:205-227 | the names listed under the buckets are the first 10 call-for-papers, the first 10 schedule-published and the first 15 active records, in that order |
| Report.BodyRemoved | scripts/check_conferences.py:170-174 | the names the body shows as removed are exactly the removed records' names, in order |
| Report.BodyUpdated | scripts/check_conferences.py:176-180 | the names the body shows as updated are exactly the changes' new names, in order |
| Report.ChangeSectionsSilent | scripts/check_conferences.py:162-180 | the change sections hold no bucket heading, listed name or "more" line |

## Left out

- Fetching the page over HTTP (`scripts/check_conferences.py:12-21`): network I/O. The model starts from the list of text lines.
- HTML parsing and text extraction with BeautifulSoup, and the splitting and stripping into lines (`scripts/check_conferences.py:23-31`): a foreign library. Its one guarantee the model uses (lines are non-empty and stripped) is the hypothesis `Normalized`.
- `load_previous_data` and `save_current_data` (`scripts/check_conferences.py:93-113`): file and JSON I/O. Snapshots are sequences of conferences here.
- `create_github_issue` (`scripts/check_conferences.py:235-266`): an HTTP call to the GitHub API.
- `main` (`scripts/check_conferences.py:269-307`): orchestration, environment variables and console output.
- The detection time: `datetime.now()` is a clock, so it is the string parameter `detectedAt` of `Report.CreateIssueBody`.
- The exact text of the report: the emoji, the Markdown markup and the blank separator lines. Each line is a constructor of `Report.Line` that carries the values it shows.
- Iteration order of dicts and sets: `Differ.CollectIds` and `Differ.CollectChanged` pick ids from a set in an unspecified order. So the added, removed and modified lists are specified by their content, not their order.
- Unicode: `str.lower`, `\w`, `\s` and `re.I` are approximated on ASCII. Lowering maps A-Z only; a word character is a letter, a digit or `_`; whitespace is space, the control characters 9-13 and the separators 28-31, as `str.isspace` has them in ASCII.
- Extractor.ExtractConferences: equality with `Extract` is stated for normalized lines only, the only input the script hands it. On other input the method is still specified exactly, by the fold `Scanned`.
- The extractor's behaviour on concrete page text is not worked through as literal examples. The structural properties hold for every input, and the string tests are specified by `Keywords` and `Text`.
- The mutation of the input dicts by the deduplication loop at the end of `fetch_conferences` (`scripts/check_conferences.py:86` writes `id` into the dict it keeps): the model builds new `Conference` values, and no caller reads the old records afterwards.
