# fossradar — a Dafny model of the catalog pipeline

fossradar is a directory of open-source projects from India. Each project
is a TOML file under `data/projects/`. Scripts enrich these files from
GitHub and build a search index, a Next.js site renders the catalog, and
a webhook invalidates the cached catalog when a push touches it. This
project models the logic behind those steps as pure Dafny functions over
immutable records, and proves what the code promises.

Modules, one per source file or concern:

- `Catalog` holds the project record and the search-index entry.
- `Similar` models `lib/similar.ts`: the relatedness score and top-k selection.
- `ProjectGrid` models `components/ProjectGrid.tsx`. It covers the search gate, the three conjunctive filters and the sort with `fossradar` pinned first. It also covers the available-tags list.
- `GitHub` models the pure parts of `lib/github.ts`:
  - owner/repo extraction from a URL pathname;
  - the topic and README-badge checks;
  - the good-first-issue count;
  - contributor mapping;
  - the installation-method priority chain;
  - docs/changelog detection.
- `Toml` models the line-oriented field rewrite of `scripts/enrich.ts`. A file is a sequence of lines split at every JavaScript line terminator, with a proved parse/serialize round trip.
- `Enrich` models the per-project enrichment step and the batch loop of `scripts/enrich.ts`, as a fold over projects and a map of files.
- `Webhook` models `app/api/webhook/route.ts`: signature verification and the ordered decision procedure of `POST`.
- `SearchIndex` and `HomePage` model the index projections of `scripts/build-index.ts` and `app/page.tsx`.
- `Radar` models the state/city grouping, sort orders and totals of `app/radar/page.tsx`.
- `Sitemap` models `app/sitemap.ts`.
- `ProjectDetail`, `DocumentationLinks`, `InstallationGuide` and `ContributorAvatars` model the pure decisions inside those components.
- `Wrappers`, `Text`, `Seqs` and `Sorting` are shared helpers. `Sorting` contains a stable insertion sort that stands in for `Array.prototype.sort`.

External inputs are parameters, never computed. These are:

- every GitHub response;
- the URL parser's `pathname`;
- the fuzzy matcher;
- HMAC-SHA256;
- the JSON parser;
- the clock value written into caches.

A fetch that can fail is an `Option`. A directory listing is `ListingFailed`, `NotAnArray` or `Entries`.

## Model

| member | source | states |
|---|---|---|
| Similar.SharedTagsIsFilter | lib/similar.ts:10 | the shared tags are the current project's tags, in order and with repeats, that also occur in the other project's list |
| Similar.Score | lib/similar.ts:6-29 | an equal primary language alone yields at least 2; the score never exceeds three per tag of the current project plus 4 |
| Similar.ScoreZeroIff | lib/similar.ts:6-29 | the score is zero exactly when no tag is shared and language, state and city all differ (both directions) |
| Similar.ScoreIsSetScore | lib/similar.ts:10-26 | when the current project lists no tag twice, the score equals three per tag in the set intersection plus the bonuses |
| Similar.ScoreSymmetric | lib/similar.ts:6-29 | for duplicate-free tag lists the score does not depend on which project is current |
| Similar.DuplicateTagBreaksSymmetry | lib/similar.ts:10-11 | a tag repeated in the current project is counted once per repeat, so the score is not symmetric in general |
| Similar.ByRelevanceIsStrictWeak | lib/similar.ts:46-52 | score descending, then stars (absent as 0) descending, is a strict weak order, so the sort result is determined |
| Similar.Ranked | lib/similar.ts:39-52 | the ranked list is a permutation of the other projects with a positive score, and no later entry outranks an earlier one |
| Similar.TopK | lib/similar.ts:53 | the first `limit` ranked entries are candidates, and no candidate left out outranks any of them |
| Similar.FindSimilar | lib/similar.ts:34-56 | every result is another project with a positive score; the count is the smaller of the limit and the candidate count; results are ordered by score, then stars |
| Similar.SelectionQualifies | lib/similar.ts:39-53 | the kept prefix has length min(limit, candidates) and holds only other projects with a positive score |
| Similar.SelectionOrdered | lib/similar.ts:46-53 | along the kept prefix the score never rises, and within equal scores the stars never rise |
| ProjectGrid.PassesIsConjunction | components/ProjectGrid.tsx:66-86 | the callback with its early returns accepts exactly the entries that pass the verified, contributors and tags checks |
| ProjectGrid.FiltersCompose | components/ProjectGrid.tsx:66-86 | filtering once with the callback equals applying the three checks one after another, in either order |
| ProjectGrid.VerifiedFirst | components/ProjectGrid.tsx:66-86 | verified, then contributors, then tags filtering gives the callback's result |
| ProjectGrid.TagsFirst | components/ProjectGrid.tsx:66-86 | tags, then contributors, then verified filtering gives the callback's result |
| ProjectGrid.FilterSettingsCommute | components/ProjectGrid.tsx:66-86 | filtering by two settings gives the same entries in either order |
| ProjectGrid.EmptySelectionKeepsAll | components/ProjectGrid.tsx:17-22 | the initial settings (no tags, no flags) keep every entry |
| ProjectGrid.GridOrderIsStrictWeak | components/ProjectGrid.tsx:89-103 | the comparator that pins "fossradar" first and then orders by the mode is a strict weak order, so the sort result is determined |
| ProjectGrid.SearchCandidates | components/ProjectGrid.tsx:57-63 | a blank query keeps the list as it is; otherwise every candidate is a listed entry that the search matched |
| ProjectGrid.Kept | components/ProjectGrid.tsx:57-86 | an entry is kept exactly when it is listed, passes the filters, and the query is blank or matches it |
| ProjectGrid.GridSortedShape | components/ProjectGrid.tsx:89-103 | in a list sorted by the comparator, pinned entries come first and the rest follow the mode's order |
| ProjectGrid.FilteredProjects | components/ProjectGrid.tsx:56-106 | the result holds exactly the listed entries that pass the filters and match the query; with a blank query it is a permutation of the filtered list; "fossradar" comes first and the rest follow the mode |
| ProjectGrid.FilteredProjectsStable | components/ProjectGrid.tsx:89-103 | entries the comparator ties keep the order they had after filtering |
| ProjectGrid.AllTags | components/ProjectGrid.tsx:48-51 | a tag is collected exactly when some entry carries it |
| ProjectGrid.AvailableTags | components/ProjectGrid.tsx:47-53 | the available tags are exactly the union of all entries' tags, strictly increasing (so sorted and duplicate-free) |
| GitHub.StripLeadingSlashes | lib/github.ts:13 | the result is a suffix of the input, everything removed is `/`, and the result does not start with `/` |
| GitHub.StripTrailingSlashes | lib/github.ts:13 | the result is a prefix of the input, everything removed is `/`, and the result does not end with `/` |
| GitHub.ParseRepoPath | lib/github.ts:13-17 | a parsed owner and repo are non-empty, contain no `/`, and the trimmed pathname begins with `owner/repo` |
| GitHub.ParseRepoPathOf | lib/github.ts:13-17 | any run of leading slashes, then `owner/repo` (both non-empty, slash-free), then nothing or a `/`-led rest parses back to exactly that owner and repo; extra segments are ignored |
| GitHub.TrimmedOf | lib/github.ts:13 | trimming `owner/repo` plus a `/`-led rest leaves `owner/repo` followed by nothing or a `/`-led tail |
| GitHub.SplitOwnerRepo | lib/github.ts:13 | splitting `owner/repo` plus a `/`-led tail at `/` yields owner and repo as the first two parts |
| GitHub.HasTopic | lib/github.ts:10-30 | true exactly when the path parses, the topics fetch succeeds and some topic lower-cases to `fossradar` |
| GitHub.TopicMatchIgnoresCase | lib/github.ts:25 | a topic equal to `fossradar` up to case is accepted |
| GitHub.TopicMatchIsExact | lib/github.ts:25 | the match is on the whole topic: `fossradar-india` does not pass |
| GitHub.Readme | lib/github.ts:88-107 | an unparseable path gives no README; otherwise the fetched README, with no README on a failed fetch |
| GitHub.HasVerifiedBadge | lib/github.ts:112-117 | true exactly when a README exists and contains the badge marker up to case |
| GitHub.NoReadmeNoBadge | lib/github.ts:113-114 | a missing or empty README never passes |
| GitHub.MarkerPassesBadgeCheck | lib/github.ts:116 | a README with the marker spelled exactly passes |
| GitHub.CountGoodFirstIssues | lib/github.ts:122-144 | the count is 0 or 1, and it is 1 exactly when the path parses, the fetch succeeds and an open good-first issue exists |
| GitHub.LoginOrAnonymous | lib/github.ts:165 | the login is never empty; a non-empty login is kept; the result is `anonymous` exactly when the login was missing, empty or literally `anonymous` |
| GitHub.ToContributor | lib/github.ts:164-169 | avatar, profile URL and contribution count are copied; the login becomes `anonymous` exactly when it was missing or empty (or already `anonymous`) |
| GitHub.GetContributors | lib/github.ts:149-174 | at most `limit` contributors; `[]` when the path does not parse or the fetch fails; otherwise the mapped first page |
| GitHub.FirstContributors | lib/github.ts:158-169 | the first min(limit, n) contributors, each mapped in place, so order and count are kept |
| GitHub.Names | lib/github.ts:202 | one name per listing entry, in order |
| GitHub.DetectInstallation | lib/github.ts:179-274 | null exactly for an unparseable path or a non-array listing; an array listing always gives a method; no path, or a failed listing fetch, gives `git clone <url>`; the kind is one of npm, pip, cargo, go, git, and `git` always means `git clone <url>` |
| GitHub.InstallationPriority | lib/github.ts:204-265 | for an array listing: npm when its rule fires; pip when npm does not and pip does; cargo when neither does and `Cargo.toml` is listed; go when none of these does and `go.mod` is listed (each an if-and-only-if) |
| GitHub.GoCommand | lib/github.ts:254-258 | the go command is `go install github.com/<owner>/<repo>@latest` |
| GitHub.InstallCommands | lib/github.ts:210-250 | the npm command is `npm install <name>` with the name declared in the fetched `package.json`; the pip command is `pip install <repo>`; the cargo command is `cargo install <repo>` |
| GitHub.DocumentationIn | lib/github.ts:304-322 | the docs URL is absent exactly when no entry is a docs directory, and otherwise uses the first such entry's name as written; likewise the changelog URL for the first `changelog*` file |
| GitHub.FindDocumentation | lib/github.ts:279-327 | `{}` for an unparseable path, a failed fetch or a non-array listing; otherwise the selection over the listing |
| GitHub.DocsDirKeepsCase | lib/github.ts:307-311 | a directory named `Docs` is matched ignoring case, and the URL keeps the original spelling |
| Enrich.RepoMetadata | lib/github.ts:58-83 | no metadata for an unparseable path; otherwise whatever the fetch yields, with none on failure |
| Enrich.KeepWithProfile | scripts/enrich.ts:73-81 | a contributor is kept exactly when both its avatar and profile URLs are present and non-empty, and the kept ones keep their order |
| Enrich.ContributorsKeptInOrder | scripts/enrich.ts:73-81 | the written contributors are a subsequence of the fetched ones, and every fetched contributor with both URLs is among them |
| Enrich.PathsDiffer | scripts/enrich.ts:97-123 | distinct slugs name distinct TOML files and distinct cache files |
| Enrich.Decide | scripts/enrich.ts:58-94 | stars and language come from the metadata; the issue count is at most 1; `verified` holds exactly when both the topic check and the badge check pass; at most 10 contributors, each with both URLs |
| Enrich.VerifiedIsConjunction | scripts/enrich.ts:68-70 | if either the topic or the badge check fails, the written `verified` is false |
| Enrich.EnrichProject | scripts/enrich.ts:56-129 | skipped exactly when the metadata fetch yields nothing; failed exactly when metadata is there but the TOML file cannot be read; an update writes the field rewrite of the file read and a cache record with the decided values |
| Enrich.EnrichTwiceSameToml | scripts/enrich.ts:96-112 | running the step again on the file it wrote, with the same fetched values, writes the same file |
| Enrich.EnrichAgrees | scripts/enrich.ts:97-98 | a project's step depends on no TOML file other than its own |
| Enrich.EnrichReadsOwnFile | scripts/enrich.ts:97-98 | the same, stated for the step as a function of the files |
| Enrich.Loop | scripts/enrich.ts:53-133 | the loop yields exactly one outcome per loaded project |
| Enrich.LoopDelays | scripts/enrich.ts:59-132 | one delay is taken per project except the skipped ones, whose `continue` jumps over it |
| Enrich.EnrichAll | scripts/enrich.ts:35-140 | the job aborts exactly when the token is missing or empty; otherwise one outcome per project, with one delay per project that was not skipped |
| Enrich.LoopFrameTomls | scripts/enrich.ts:112 | a TOML file no updated project names is left as it was |
| Enrich.LoopFrameCaches | scripts/enrich.ts:124 | a cache file no updated project names is left as it was |
| Enrich.LoopOutcomes | scripts/enrich.ts:53-129 | with distinct slugs every project's outcome is what its step gives on the files as they were before the batch |
| Enrich.LoopWrites | scripts/enrich.ts:112-124 | with distinct slugs every updated project's TOML and cache files end up holding what its step produced |
| Enrich.HeadWritten | scripts/enrich.ts:112-124 | the first project's written files survive the rest of the batch |
| Enrich.EnrichAllIsolation | scripts/enrich.ts:53-133 | with distinct slugs: each outcome is the step on the initial files whatever happened to the other projects; updated projects' files hold the new contents; a skipped or failed project's TOML file is untouched |
| Toml.Parse | scripts/enrich.ts:98-110 | splitting a file at every JavaScript line terminator gives well-formed lines that serialize back to exactly the file |
| Toml.ParseSerialize | scripts/enrich.ts:98-112 | parsing the serialization of well-formed lines gives the same lines back (the other half of the round trip) |
| Toml.ContentContains | scripts/enrich.ts:106 | for a needle without line terminators, the file contains it exactly when one of its lines does |
| Toml.FieldsDisjoint | scripts/enrich.ts:101-109 | no line matches two of the four field patterns |
| Toml.FirstMatch | scripts/enrich.ts:101-109 | the index of the first line matching the pattern with the `m` flag, or the line count when none matches |
| Toml.ReplaceFirst | scripts/enrich.ts:101-109 | a non-global `replace` changes only the text of the first matching line; every other line and every terminator is unchanged; with no match nothing changes and no line is inserted |
| Toml.ReplaceSettles | scripts/enrich.ts:101-103 | after replacing with a text that itself matches the pattern, the first match reads that text |
| Toml.SettledUnchanged | scripts/enrich.ts:101-103 | replacing a field that already reads the new text changes nothing |
| Toml.ReplaceKeepsFirstMatch | scripts/enrich.ts:101-103 | rewriting one field does not move another field's first match |
| Toml.ReplaceKeepsSettled | scripts/enrich.ts:101-103 | rewriting one field keeps another field's first match reading what it read |
| Toml.PrependKeepsSettled | scripts/enrich.ts:107 | putting a non-matching line in front keeps a field settled |
| Toml.NewLinesMatch | scripts/enrich.ts:101-109 | each replacement line matches its own pattern, so the rewrite can find it again |
| Toml.SetPrimaryLang | scripts/enrich.ts:106-109 | without a language nothing changes; a line is added exactly when a language is fetched, `primary_lang` appears nowhere, and the file starts with `added_at = `, and the added line goes first; when a language is fetched and the file contains `primary_lang`, the line count and every terminator are kept, only the first `primary_lang = "…"` line may change, and it becomes `primary_lang = "<lang>"` |
| Toml.InsertLangLine | scripts/enrich.ts:107 | the language line goes in front and everything else follows unchanged |
| Toml.OverwriteLangLine | scripts/enrich.ts:109 | the first `primary_lang = "…"` line, if any, becomes `primary_lang = "<lang>"`; every other line and every terminator is kept |
| Toml.Rewrite | scripts/enrich.ts:101-110 | the rewrite keeps the file well formed |
| Toml.ThreeSettled | scripts/enrich.ts:101-103 | after the three replacements each of the three fields is settled to its new line |
| Toml.LangStepKeepsSettled | scripts/enrich.ts:105-110 | the `primary_lang` step keeps the other fields settled |
| Toml.LangStepIdempotent | scripts/enrich.ts:105-110 | applying the `primary_lang` step twice equals applying it once |
| Toml.OverwriteIdempotent | scripts/enrich.ts:108-110 | the same when the file already contains `primary_lang` |
| Toml.InsertIdempotent | scripts/enrich.ts:106-107 | the same when the line was inserted: the second pass finds the key and overwrites the line with itself |
| Toml.RewriteIdempotent | scripts/enrich.ts:101-110 | on well-formed lines the whole rewrite is idempotent |
| Toml.RewriteContentIdempotent | scripts/enrich.ts:98-112 | on file contents: rewriting the rewritten file with the same values changes nothing |
| Toml.RewriteTouchesFirstMatchesOnly | scripts/enrich.ts:101-109 | apart from a language line put in front, the rewrite keeps every terminator and every line except the first `stars`, `good_first_issues`, `verified` and `primary_lang` lines; without a language nothing is put in front; with a language and an existing `primary_lang = "…"` line, nothing is put in front and that line reads the new language |
| Toml.LangStepTouched | scripts/enrich.ts:106-109 | the `primary_lang` step either puts the language line in front of the unchanged file or changes at most the first `primary_lang = "…"` line, and a fetched language always lands in that line when it exists |
| Toml.ThreeTouched | scripts/enrich.ts:101-103 | the three numeric/boolean replacements change only their own first matches, keep every terminator, and leave the first `primary_lang` line where it was |
| Webhook.EncodeChar | app/api/webhook/route.ts:22 | a code point encodes to one to four UTF-8 bytes; it is a single byte exactly when it is ASCII, and then the byte is the code point |
| Webhook.Utf8 | app/api/webhook/route.ts:22 | the UTF-8 encoding is never shorter than the string |
| Webhook.Utf8Ascii | app/api/webhook/route.ts:22 | an ASCII string encodes to one byte per character, each equal to its code point |
| Webhook.Utf8AsciiInjective | app/api/webhook/route.ts:22 | only the ASCII string itself encodes to that string's bytes, so byte equality with a digest header is string equality |
| Webhook.HexDigitInjective | app/api/webhook/route.ts:21 | distinct nibbles give distinct lower-case hex digits |
| Webhook.Hex | app/api/webhook/route.ts:21 | two ASCII hex digits per byte, high nibble first |
| Webhook.HexInjective | app/api/webhook/route.ts:21 | equal hex strings of equal-length inputs come from equal bytes |
| Webhook.ExpectedSignature | app/api/webhook/route.ts:20-21 | the expected header is 71 ASCII characters starting with `sha256=` |
| Webhook.VerifySignature | app/api/webhook/route.ts:19-23 | the comparison throws exactly when the signature's UTF-8 length differs from 71; it succeeds exactly when the signature equals `sha256=` plus the hex HMAC of the body |
| Webhook.TamperedBodyRejected | app/api/webhook/route.ts:19-23 | a signature made for one body is rejected for a body with a different HMAC |
| Webhook.Post | app/api/webhook/route.ts:25-72 | a missing or empty header gives 401 before anything else; then a missing secret gives 500; success exactly when the signature matches and the body parses; at most one invalidation, and one exactly when the request succeeds, the push is to the default branch and some commit touches a catalog path |
| Webhook.WrongLengthIsServerError | app/api/webhook/route.ts:22-70 | a signature of the wrong byte length makes the comparison throw, and the reply is 500, not 401 |
| Webhook.WrongSignatureIsUnauthorized | app/api/webhook/route.ts:41-43 | a signature of the right length that does not match gives 401 |
| Webhook.ParseAfterVerification | app/api/webhook/route.ts:41-45 | before verification passes the reply does not depend on how the body parses |
| Webhook.UnparseableBodyFails | app/api/webhook/route.ts:45-70 | a correctly signed body that does not parse gives 500 with no invalidation |
| Webhook.SubmissionPathInvalidates | app/api/webhook/route.ts:48-64 | a signed default-branch push that adds `data/projects/<slug>.toml`, the file a submission creates, invalidates the catalog once and succeeds |
| Webhook.MissingRepositoryMatchesUndefined | app/api/webhook/route.ts:48 | with no repository field, the branch check compares against `refs/heads/undefined` |
| SearchIndex.IndexEntry | scripts/build-index.ts:16-28 | the listed fields are copied unchanged; stars default to 0, verified is true only for an explicit true, and the contributor flag is always present and true only for an explicit true |
| SearchIndex.ByName | scripts/build-index.ts:31 | the name comparator is a strict weak order |
| SearchIndex.BuildIndex | scripts/build-index.ts:12-31 | one entry per loaded project: the index is a permutation of the projected projects, sorted by name, and every entry carries the contributor flag |
| SearchIndex.BuildIndexCoversCatalog | scripts/build-index.ts:16-28 | every project's entry is in the index, and every index entry is some project's entry |
| SearchIndex.BuildIndexStable | scripts/build-index.ts:31 | entries with equal names keep their load order |
| SearchIndex.BuildIndexIsSorted | scripts/build-index.ts:31 | sorting the index again changes nothing |
| HomePage.HomeEntry | app/page.tsx:40-52 | the listed fields are copied unchanged; stars default to 0 and verified to false; the contributor flag is copied as it is, possibly absent |
| HomePage.Home | app/page.tsx:36-116 | the grid is shown exactly when some project was loaded, and it receives one entry per project in load order, with no sort |
| HomePage.HomeEntryMatchesIndex | app/page.tsx:49 | the page's entry differs from the index's only in how an absent contributor flag is written, and the grid filter treats the two alike |
| HomePage.DefaultViewListsEveryProject | app/page.tsx:114-116 | with a blank query and no filters every loaded project appears in the grid |
| Sitemap.ProjectUrl | app/sitemap.ts:32 | a project page URL starts with `https://fossradar.in/projects/` |
| Sitemap.Sitemap | app/sitemap.ts:4-39 | 3 + n entries: the base URL, `/radar` and `/about` first, then entry 3+i is project i's page, weekly, last modified at its `added_at` |
| Sitemap.ProjectUrlInjective | app/sitemap.ts:32 | two project URLs are equal exactly when the slugs are |
| Sitemap.ProjectUrlNotStatic | app/sitemap.ts:9-32 | no project URL equals a static route |
| Sitemap.EntriesDiffer | app/sitemap.ts:9-38 | with distinct slugs, any two sitemap entries have different URLs |
| Sitemap.SitemapUrlsDistinct | app/sitemap.ts:9-38 | with distinct slugs the sitemap lists no URL twice |
| Sorting.Sort | scripts/build-index.ts:31 | the model of a stable `Array.prototype.sort` with a consistent comparator: a permutation of its input in which no later element is less than an earlier one |
| Sorting.SortStable | scripts/build-index.ts:31 | elements the order ties keep their relative order |
| Sorting.SortSorted | scripts/build-index.ts:31 | sorting an already sorted sequence returns it unchanged |
| Sorting.PrefixOfSorted | lib/similar.ts:53 | a prefix of a sorted sequence is sorted, and nothing left out is less than anything kept |
| Sorting.LexLessIsStrictWeak | scripts/build-index.ts:31 | the code-point order on names is a strict weak order |
| Text.Lower | lib/github.ts:25 | lower-casing keeps the length and maps each character |
| Text.ContainsThenIgnoreCase | lib/github.ts:116 | a string that contains a needle also contains it ignoring case |
| Text.NatToDecimal | scripts/enrich.ts:101-102 | the decimal rendering of a count is a non-empty digit string with that value and no leading zero |
| Text.Split | lib/github.ts:13 | splitting gives at least one part, no part contains the separator, and joining the parts gives the input back |
| Text.SplitJoin | lib/github.ts:13 | splitting the join of separator-free parts gives the parts back |
| Text.LexTotal | scripts/build-index.ts:31 | of two different names one comes first |
| Radar.Bump | app/radar/page.tsx:42-50 | adding to a bucket keeps the bucket count when the key exists and adds one bucket otherwise |
| Radar.BumpShape | app/radar/page.tsx:42-50 | an existing key's bucket gains one count and the new member at its end; a new key gets a bucket of one at the end; every other bucket is unchanged |
| Radar.GroupBy | app/radar/page.tsx:40-64 | a non-empty input gives at least one bucket |
| Radar.BumpGrouping | app/radar/page.tsx:40-64 | one reduce step turns the grouping of a prefix into the grouping of the prefix plus the next project |
| Radar.GroupByIsGrouping | app/radar/page.tsx:40-64 | buckets appear in first-appearance order of their keys; each holds exactly the inputs with its key, in load order; its count is its length |
| Radar.GroupingPartitions | app/radar/page.tsx:40-64 | every input lies in exactly one bucket, the one with its key |
| Radar.GroupingNonEmpty | app/radar/page.tsx:42-50 | no bucket has a zero count |
| Radar.GroupByCounts | app/radar/page.tsx:49-70 | the bucket counts add up to the number of inputs |
| Radar.GroupByWeights | app/radar/page.tsx:73 | any per-item weight summed over the buckets equals its sum over the inputs |
| Radar.AddProjectNested | app/radar/page.tsx:40-64 | one reduce step keeps the states grouped by state and each state's cities grouped by city |
| Radar.ProjectsByStateNested | app/radar/page.tsx:40-64 | the whole reduce yields the state grouping, with each state's cities the city grouping of its projects |
| Radar.ProjectsByStateGroups | app/radar/page.tsx:40-64 | states appear in first-appearance order; each state's list is exactly its projects in load order and its count is that list's length; its cities group its projects |
| Radar.ProjectInOneState | app/radar/page.tsx:40-64 | every loaded project is in exactly one state's list, the one named by its state |
| Radar.ProjectInOneCity | app/radar/page.tsx:52-61 | within its state a project is in exactly one city's list, the one named by its city |
| Radar.CountsAddUp | app/radar/page.tsx:49-70 | the state counts add up to the number of projects, and each state's count equals its list length and the sum of its city counts |
| Radar.TotalStarsIsSum | app/radar/page.tsx:73 | the star total is the sum of stars with absent ones as 0 |
| Radar.StarsAddUpOverStates | app/radar/page.tsx:73 | the star total equals the sum of the per-state star totals |
| Radar.StatesByCount | app/radar/page.tsx:67-68 | count descending is a strict weak order on states |
| Radar.CitiesByCount | app/radar/page.tsx:238-239 | count descending is a strict weak order on cities |
| Radar.SortedStates | app/radar/page.tsx:67-68 | the sorted states are a permutation of the grouped states with counts non-increasing |
| Radar.SortedCities | app/radar/page.tsx:238-239 | a state's sorted cities are a permutation of its cities with counts non-increasing |
| Radar.SortedStatesStable | app/radar/page.tsx:67-68 | states with equal counts keep first-appearance order |
| Radar.SortedCitiesStable | app/radar/page.tsx:238-239 | cities with equal counts keep first-appearance order |
| Radar.MaxCount | app/radar/page.tsx:241 | the maximum is absent only for no cities, is attained by some city, and bounds every city count |
| Radar.RegionNonEmpty | app/radar/page.tsx:40-64 | every state has at least one city and no city has a zero count |
| Radar.MaxCountPositive | app/radar/page.tsx:238-241 | every rendered state's largest city count exists and is at least 1 |
| Radar.TotalCitiesAsWritten | app/radar/page.tsx:72 | the count of distinct `city, state` strings, as the page computes it, is at most the number of projects |
| Radar.TotalCities | app/radar/page.tsx:72 | the count of distinct (city, state) pairs is at most the number of projects, and at least 1 when there is any |
| Radar.PlaceSeen | app/radar/page.tsx:40-72 | a project's city already has a row under its state exactly when an earlier project had the same (city, state) pair |
| Radar.DistinctPlaces | app/radar/page.tsx:40-72 | the number of distinct (city, state) pairs equals the number of city rows over all states |
| Radar.TotalCitiesMatchesRows | app/radar/page.tsx:72 | the corrected total equals the number of city rows the page renders |
| Radar.CityKeyCollision | app/radar/page.tsx:72 | two projects whose `city, state` strings coincide but whose pairs differ are counted as one city by the page, though they are two pairs and two city rows |
| Radar.CommaInCityName | app/radar/page.tsx:72 | a concrete instance: city `Salt Lake, Kolkata` in `West Bengal` and city `Salt Lake` in `Kolkata, West Bengal` give the same key |
| Radar.RadarTotals | app/radar/page.tsx:70-74 | the project total is the number loaded; the state total is the number of distinct states; the verified total counts the projects whose `verified` is true; cities are bounded by projects and equal the city rows; stars equal the per-state star sums |
| ProjectDetail.BadgeLinksToProjectPage | components/ProjectDetail.tsx:36 | the badge links to the project's own page, the same URL the sitemap lists |
| ProjectDetail.BadgeContainsMarker | components/ProjectDetail.tsx:36 | the badge text contains the marker the README badge check looks for |
| ProjectDetail.PastedBadgePassesCheck | components/ProjectDetail.tsx:36 | a README that contains the offered badge passes the badge check of lib/github.ts line 116 |
| ProjectDetail.Contributors | components/ProjectDetail.tsx:126-128 | the contributor strip appears exactly when a cache is present and its list is non-empty, and it shows that list with no remainder |
| ProjectDetail.InstallBox | components/ProjectDetail.tsx:131 | without a cache the box is labelled `Git` and shows `git clone <repo>`; a cached non-empty command is shown as it is |
| ProjectDetail.Badge | components/ProjectDetail.tsx:177-194 | the badge section appears exactly when the project is verified, and its text carries the marker |
| ProjectDetail.Detail | components/ProjectDetail.tsx:35-197 | stars and good-first-issues default to 0; the verified pill and the badge section follow `verified`; the welcome box follows an explicit `looking_for_contributors`; the contributors section follows a non-empty cached list; without a cache the install box falls back to git clone; two to four resource links |
| ProjectDetail.UnenrichedProject | components/ProjectDetail.tsx:126-134 | a project with no cache shows no contributors, `git clone <repo>`, and only the Repository and Issues links |
| DocumentationLinks.VisibleLinks | components/DocumentationLinks.tsx:14-41 | Repository and Issues are always shown; Documentation is shown exactly when the docs URL is non-empty, and Changelog when the changelog URL is; the order is fixed; two to four links |
| DocumentationLinks.VisibleShape | components/DocumentationLinks.tsx:41 | filtering four links whose first and last are always shown keeps those two and the middle ones that are visible, in order |
| DocumentationLinks.Render | components/DocumentationLinks.tsx:41-45 | the null branch is never taken: the component always renders the visible links |
| DocumentationLinks.NoDocumentationTwoLinks | components/DocumentationLinks.tsx:14-41 | without documentation only Repository and `<repo>/issues` are shown |
| InstallationGuide.Command | components/InstallationGuide.tsx:16 | a non-empty cached command is shown as it is; otherwise `git clone <repo>` |
| InstallationGuide.Kind | components/InstallationGuide.tsx:17 | a non-empty cached type is used as it is; otherwise `git` |
| InstallationGuide.Label | components/InstallationGuide.tsx:19-36 | the label is `Installation` exactly for a type outside npm, pip, cargo, go and git; for those it is the type with its display capitalisation |
| InstallationGuide.FallbackIsGitClone | components/InstallationGuide.tsx:16-17 | with nothing cached the box shows exactly the installation the detector falls back to for the same URL (lib/github.ts lines 262-265), labelled `Git` |
| InstallationGuide.DetectedInstallationLabelled | components/InstallationGuide.tsx:19-36 | whatever the detector returns, or its absence, gets a label of its own, never the generic one |
| ContributorAvatars.RemainingCount | components/ContributorAvatars.tsx:22-25 | the remainder is never negative; it is positive exactly when a total is given and exceeds the displayed count, and then it is their difference |
| ContributorAvatars.Render | components/ContributorAvatars.tsx:17-35 | nothing is rendered exactly for an empty list; otherwise one avatar per contributor in list order, and shown plus remaining covers any given total |
| ContributorAvatars.NoTotalNoRemainder | components/ContributorAvatars.tsx:23-25 | without a total nothing is counted as remaining |

## Left out

- Network and process I/O are not modelled: Octokit calls, `fs` reads and writes, `process.exit`, console output, and the 1000 ms delay. Each fetch is an oracle parameter. The delay is only counted, in `Enrich.LoopDelays`.
- `createProjectPR` and `isRepoAccessible` in lib/github.ts are not modelled. They are pure network sequences with nothing to decide. `Webhook.SubmissionPathInvalidates` uses only the file path that `createProjectPR` creates.
- URL parsing is not modelled (the WHATWG URL Standard, section 4.4). Each fetcher receives the `pathname` from an oracle, and `None` stands for a throwing `new URL`.
- Base64 and JSON decoding of README and `package.json` contents is not modelled. The README arrives already decoded. A package name arrives as `Option<string>`, with `None` for any throw or a missing or empty `name`.
- The webhook's `JSON.parse` is a parameter returning `Option<Payload>`. Payload fields of the wrong type are treated as absent. Non-array `commits` and `null` commits are not modelled.
- Webhook: a failure to read the request body is not modelled.
- HMAC-SHA256 (RFC 2104, section 2, with SHA-256) is an uninterpreted function returning 32 bytes. `timingSafeEqual` is modelled only as "throws on a length mismatch, else byte equality".
- Fuse.js scoring, threshold and result order are not modelled. The search is an abstract match predicate, and the matches keep input order. So `ProjectGrid.FilteredProjectsStable` fixes the order of ties only relative to that order.
- React hooks, memoisation, the 300 ms debounce and all JSX rendering, styling and layout are left out. Only the decisions that choose what is shown are modelled.
- Text rules are simplified. `localeCompare` is replaced by code-point order on characters. `toLowerCase` and the `/i` flag are ASCII case folding, which is exact for the fixed ASCII needles used (`fossradar`, `docs`, `documentation`, `changelog`, the badge marker). Strings are sequences of Unicode scalar values, not UTF-16 code units, so lone surrogates are not modelled.
- ProjectGrid.AvailableTags: the comparator-less `sort()` orders by UTF-16 code units; the model orders by code points, which differs only between characters above U+FFFF and characters in U+E000–U+FFFF.
- Dates are integer timestamps: `added_at` and `new Date(...)`. `toISOString` and `formatRelativeTime` are not modelled, and the cache's `updated_at` is a parameter.
- Floating-point values are not modelled: the radar percentages and `Math.round`, the index size check in KB, and sitemap priorities (kept as tenths).
- JavaScript object keys are assumed to behave like a plain dictionary. Prototype keys such as `__proto__` or `constructor` used as a state or city name are not modelled. Neither is the reordering of integer-like keys by `Object.entries`, which the model replaces with first-appearance order.
- The `typeLabels` lookup is a plain table. A type such as `toString`, which would hit `Object.prototype`, is not modelled.
- `$` patterns in `String.prototype.replace` replacements are not modelled. Fetched language names are assumed to contain no line terminator, which the idempotence lemmas require.
- Python markers: the file fetched for pip detection is only checked for success (`fetchOk`). Its content is not read, as in the source.
- Enrich.EnrichProject: an exception can arise only from reading a missing TOML file. Each library call already catches its own errors. A cache-write failure after the TOML was written is not modelled.
- The page-view components, the submission and about pages, the layout and the images are presentation only.
- Similar: the score follows the code. A set-based reading of it ("three points per common tag") would differ in two ways:
  - The +2 language bonus applies whenever the two values are equal, including both absent; `Similar.TagSetScore` keeps that bonus as written.
  - A tag repeated in the current project counts once per repeat.
  
  `Similar.ScoreIsSetScore` and `Similar.DuplicateTagBreaksSymmetry` state both sides of the second difference.
- ProjectDetail.Detail: the website link, tags, license, similar projects and formatted dates are not modelled. They are copied or formatted, not decided.

## Findings

| source | as written | input that shows it | evidently intended | confidence | as-written member | corrected member |
|---|---|---|---|---|---|---|
| app/radar/page.tsx:72 | `totalCities` counts distinct strings `${city}, ${state}`, so two different (city, state) pairs can share one key | city `Salt Lake, Kolkata` in state `West Bengal`, and city `Salt Lake` in state `Kolkata, West Bengal`: both give `Salt Lake, Kolkata, West Bengal`, so 1 is shown although the page lists two city rows | the number of distinct (city, state) pairs, equal to the number of city rows the page renders | not executed | Radar.TotalCitiesAsWritten (shown by Radar.CityKeyCollision and Radar.CommaInCityName) | Radar.TotalCities (with Radar.TotalCitiesMatchesRows, used by Radar.RadarTotals) |
