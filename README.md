# Static-site generator: the content-assembly pipeline

This project models the build of a small static-site generator, written in
TypeScript (`index.ts`) with an older JavaScript variant (`index.js`). Both
read a directory of markdown documents. Each document holds a metadata block,
then the delineator `---`, then its body. The build turns every document into
one HTML page and also writes a homepage that lists the articles by year.

The model covers these steps:

- **Discovery.** `getMdFiles` and `getMdFilesFromDir` keep the markdown files
  of a recursive directory listing. Drafts and output files are dropped.
- **Splitting.** `splitContent` separates a document's metadata from its body.
  The metadata becomes a map from key to value.
- **Resolving.** Each article gets its title, slug and dates. Dates go through
  `parseDate`, and a missing title is made from the file name with `toTitleCase`.
- **Templating.** Templates are filled one placeholder at a time. Each fill is
  a `replace`, which changes only the first occurrence.
- **Year index.** The homepage groups articles by year in a JavaScript `Map`.
  The years are sorted with the default `sort` and then `reverse`d, and the
  entries within a year are sorted by descending date.
- **Writing.** The whole build runs against a disk. The disk is a map from
  path to contents, held in the `FileStore.Disk` class. Every write of a page
  is a step of one loop, `FileStore.Run`.

The build parameters are supplied from outside:

- the recursive listing of the content directory, as a sequence of `Dirent`s;
- the disk as it is before the build;
- the markdown renderer, as a function;
- the date parser, as a function that returns `None` where `new Date(...)`
  would give an invalid date, and otherwise the `YYYY-MM-DD` text.

Every thrown error is an `Err` value of `Errors.BuildError`. It is reported as
an `Outcome`, which holds the files at the moment of the throw and the error. The pages in a failed build's `Outcome` were in the source only queued by `fs.writeFile` (see Left out).

The modules:

- `Wrappers`, `Errors`: `Option`, `Result` and the build's errors.
- `JsString`: the JavaScript string operations the code relies on (`indexOf`,
  `includes`, `split`, `join`, `trim`, first-occurrence `replace`,
  `replaceAll`, `<`).
- `Paths`: `path.join`, `basename`, `extname` and `dirname`.
- `Discovery`: the listing filters of both variants.
- `FrontMatter`: `splitContent` of both variants and the `Map` they build.
- `TitleCase`: `toTitleCase`.
- `Resolve`: title, slug, dates and tags of an article.
- `Templates`: filling an article template and the homepage template.
- `Parsing`: `parseMdFiles`.
- `Sorting`: the stable sort used by `Array.prototype.sort`, as an insertion
  sort on an array, and `reverse`.
- `Grouping`: the `Map` from year to entries and the order of its years.
- `YearIndex`: the homepage loops and the markup they produce.
- `FileStore`: the disk, `rmSync`, `readFileSync`, `writeFile`, and the
  generic write loop with its lemmas.
- `Site`: `createArticles`, `createHomepage` and `generateStaticSite` of
  `index.ts`.
- `Legacy`: the same three functions of `index.js`, with its own output
  paths and ordering.

Where the code and its documented behaviour differ, the model follows the code:

- **Metadata lines.** A line is split at every `:`. The value is the text
  after the first `:` up to the next one, not the rest of the line
  (`FrontMatter.TsValueStopsAtColon`).
- **Empty metadata.** `index.ts` gives an empty map only when the trimmed
  metadata is one line without `:` (`FrontMatter.TsMetaEmpty`). Several lines
  without `:` give keys with no value.
- **Placeholders.** Only the first occurrence of each placeholder is filled
  (`Templates.SecondTitleKept`). The fills happen in sequence, so rendered
  content can capture a later placeholder (`Templates.ContentCapturesTitle`).
- **Exclusion.** `drafts` and `build` are excluded as substrings of the whole
  path, not as path segments (`Discovery.SiteUnderBuildNameEmpty`,
  `Discovery.DraftsInNameExcluded`).
- **Year order.** Years are ordered by the default `sort`. It compares the text
  `year,[object Object],...`, not numbers; `Grouping.SortYearsDescending` gives
  the case where this is a descending order.
- **Title words.** Title case starts a word at a `\w` character, not after
  white space (`TitleCase.Scan`).
- **Missing tags.** A missing `tags` entry is written as the text `undefined`
  (`Resolve.TagsText`).
- **Legacy.** `index.js` parses the documents before it removes the old build,
  and it does not check for the delineator.

## Model

| member | source | states |
|---|---|---|
| JsString.IndexOf | index.ts:63 | the result is the first index at which the text occurs, or -1 exactly when it occurs nowhere |
| JsString.JoinSplit | index.ts:67-69 | joining the pieces of a split with the separator gives back the original text |
| JsString.SplitPiecesFree | index.ts:67 | no piece of a split contains the separator |
| JsString.SplitFirst | index.ts:67-69 | the first piece is the text before the first separator; the other pieces joined back are the text after it |
| JsString.SplitSingle | index.ts:74 | a split gives exactly one piece when the separator does not occur |
| JsString.TrimEnds | index.ts:69-71 | what `trim` keeps is empty, or starts and ends with a character other than white space |
| JsString.ReplaceFirst | index.ts:216-220 | `replace` with a string pattern: the text before the first occurrence, the value, then the text after that occurrence; the text itself when the pattern does not occur |
| JsString.ReplaceAbsent | index.ts:216-220 | `replace` with a pattern that does not occur changes nothing |
| JsString.ReplaceAt | index.ts:216-220 | `replace` puts the value at the first occurrence and keeps the text around it, including later occurrences |
| JsString.ReplaceAllChar | index.ts:191 | every `_` becomes the replacement character and every other character is kept |
| JsString.LexLessTotal | index.ts:272 | two distinct strings are ordered one way or the other by `<` |
| JsString.LexLessTransitive | index.ts:272 | string `<` is transitive |
| Paths.PathJoinPlain | index.ts:43 | `path.join` of a directory and a name puts exactly one `/` between them |
| Paths.PathJoinPrefix | index.ts:339 | `path.join` of any directory, with or without a trailing `/`, and a name is the directory with one `/` after it, then the name |
| Paths.Basename | index.ts:189 | the basename contains no `/` |
| Paths.ExtName | index.ts:189 | the extension is empty, or a proper suffix of the name that starts with `.` |
| Paths.FileStemOfMarkdown | index.ts:189 | the stem of `dir/stem.md` is `stem` |
| Paths.StemNonEmpty | index.ts:189 | a path that does not end in `/` has a non-empty stem |
| Paths.DirnameOfFile | index.js:155 | the `dirname` of `dir/name` is `dir` |
| Discovery.EndsWithAny | index.ts:158-165 | the loop returns true exactly when the name ends with one of the suffixes |
| Discovery.SingleExtension | index.ts:367 | with the single extension `.md`, ends-with-any agrees with the legacy `endsWith(".md")` test |
| Discovery.GetMdFiles | index.ts:33-50 | the full paths of the non-directory entries with a markdown extension whose full path contains neither `drafts` nor `build`, in listing order |
| Discovery.LegacyGetMdFiles | index.js:104-114 | the full paths of the non-directory `.md` entries whose full path does not contain the draft directory, in listing order |
| Discovery.KeptPathsMembership | index.ts:39-48 | a path is listed exactly when some accepted entry has that full path |
| Discovery.KeptPathsConcat | index.ts:39-48 | the listing is processed entry by entry, so listing order is kept |
| Discovery.GetMdFilesMembership | index.ts:33-50 | the documents are exactly the full paths of non-directory entries named `*.md` whose full path contains neither `drafts` nor `build` |
| Discovery.GetMdFilesOrder | index.ts:33-50 | the documents of two listings in a row are those of each, in order |
| Discovery.FullPathIncludes | index.ts:43 | text in the parent path or the name is also in the joined full path |
| Discovery.SiteUnderBuildNameEmpty | index.ts:44-48 | a site under a directory whose name contains `build` yields no documents at all |
| Discovery.DraftsInNameExcluded | index.ts:46 | a document whose own name contains `drafts` is dropped |
| Discovery.LegacyGetMdFilesMembership | index.js:104-114 | the legacy documents are exactly the `*.md` files whose full path does not contain the draft directory |
| Discovery.LegacyGetMdFilesOrder | index.js:104-114 | the legacy listing keeps listing order |
| Discovery.LegacyDraftExcluded | index.js:106-112 | a file directly in `<content>drafts` is excluded, although the listing gives its parent without a trailing `/` |
| FrontMatter.TsParseMeta | index.ts:70-87 | the metadata map of index.ts: empty for a single line without `:`, otherwise the map of one trimmed entry per line, later lines winning |
| FrontMatter.JsParseMeta | index.js:78 | the legacy metadata map: one untrimmed entry per line, always |
| FrontMatter.Get | index.ts:190-197 | a lookup yields a value only for a present key with that value, and nothing for a missing key |
| FrontMatter.MapKeys | index.ts:86 | the keys of `new Map(entries)` are exactly the keys of the entries |
| FrontMatter.LastWins | index.ts:86 | when a key repeats, the last entry with it gives its value |
| FrontMatter.TsSplitContent | index.ts:62-88 | a document without `---` is a `MalformedDocument` error; otherwise the metadata comes from the text before the first `---` and the body is the trimmed rest |
| FrontMatter.JsSplitContent | index.js:74-80 | the legacy split never fails; without `---` the whole text is metadata and the body is empty |
| FrontMatter.DelineatorRoundTrip | index.ts:67-69 | metadata, delineator and body together are the whole document |
| FrontMatter.TsEntryMeaning | index.ts:73 | a line's key is the trimmed text before the first `:`; its value is the trimmed text up to the next `:`, or none without `:` |
| FrontMatter.JsEntryMeaning | index.js:78 | the legacy line gives the same pieces, untrimmed |
| FrontMatter.TsMetaEmpty | index.ts:74-76 | the map is empty exactly when the trimmed metadata is a single line without `:` |
| FrontMatter.TsMetaLookup | index.ts:82-87 | outside the empty case, a key is looked up in the last line that has it |
| FrontMatter.JsMetaLookup | index.js:78 | the legacy map looks a key up in the last line that has it |
| FrontMatter.JsMetaBlank | index.js:78 | legacy metadata that is all white space gives the single key `""` with no value |
| FrontMatter.JsMetaNoColon | index.js:78 | a legacy line without `:` maps its whole text to no value |
| FrontMatter.KeyValuePieces | index.ts:72-73 | a `key:value` line splits into the key and the value as its first two pieces |
| FrontMatter.TsKeyValue | index.ts:70-87 | a one-line `key: value` metadata gives the map from the trimmed key to the trimmed value |
| FrontMatter.JsKeyValue | index.js:78 | the legacy map of that line keeps the key and the value untrimmed |
| FrontMatter.TsKeyValueGet | index.ts:70-87 | looking the key up gives the trimmed value |
| FrontMatter.JsKeyValueGet | index.js:78 | the legacy lookup gives the untrimmed value |
| FrontMatter.TsValueStopsAtColon | index.ts:73 | `k: a:b` gives `k` the value `a` |
| FrontMatter.JsValueUntrimmed | index.js:78 | the legacy `title: Hello` gives `title` the value ` Hello`, with its leading space |
| FrontMatter.BodyKeepsLaterDelineators | index.ts:67-69 | when the `---` after the metadata is the first one, the body is the trimmed rest, later delineators included |
| FrontMatter.BodyWhenTrimmed | index.ts:67-69 | a trimmed body after the first delineator comes back unchanged |
| FrontMatter.BodyOfExample | index.ts:67-69 | `m---a---b` has the body `a---b` |
| TitleCase.ToTitleCase | index.ts:168-173 | the `\w\S*` replacement taken match by match, each match upper-cased at its first character and lower-cased after it; the result is as long as the input |
| TitleCase.RunLength | index.ts:170 | the length of the longest prefix without white space, which is what `\S*` matches |
| TitleCase.TitleCaseIsScan | index.ts:168-173 | the match-by-match replacement of `\w\S*` equals a two-state character scan |
| TitleCase.ScanInside | index.ts:170-171 | inside a match, the scan lower-cases up to the next white space |
| TitleCase.ScanOfMatch | index.ts:170-171 | one match is its upper-cased first character, then the lower-cased rest of its run |
| TitleCase.ScanKeepsSpace | index.ts:168-173 | white space is never changed |
| TitleCase.ScanSameLetters | index.ts:168-173 | every character keeps its lower-case form; only letter case changes |
| TitleCase.ScanIdempotent | index.ts:168-173 | scanning a scanned text changes nothing |
| TitleCase.TitleCaseIdempotent | index.ts:168-173 | title-casing a title-cased text changes nothing |
| TitleCase.TitleCaseOfWord | index.ts:171 | a word that starts with a word character is capitalised and the rest of it lower-cased |
| TitleCase.TitleCaseSplitsAtSpace | index.ts:169-172 | a white-space character splits the text into parts that are title-cased on their own |
| TitleCase.MyFirstPost | index.ts:191 | `my first post`, made from `my_first_post`, becomes `My First Post` |
| Resolve.Title | index.ts:190-191 | the `title` entry when it is defined, otherwise the title made from the file name |
| Resolve.PublishedDate | index.ts:192-194 | `""` without a truthy `published_date` entry, otherwise the entry parsed, or the parse error |
| Resolve.LastModifiedDate | index.ts:195-197 | a truthy `last_modified_date` entry parsed, or its parse error; otherwise the published date |
| Resolve.DefaultTitle | index.ts:191 | spaces stand exactly at the `_` and spaces of the stem; other characters keep their lower-case form; the result is already title-cased |
| Resolve.TitleChoice | index.ts:190-191 | a defined `title` entry is used as it is, even when empty; otherwise the title comes from the file name |
| Resolve.DefaultTitleExample | index.ts:191 | `my_first_post` is titled `My First Post` |
| Resolve.Slug | index.ts:225-231 | the slug is the stem with every `_` turned into `-` and nothing else changed |
| Resolve.SlugCollision | index.ts:225-231 | names that differ only in `_` against `-` get the same slug |
| Resolve.DateEntry | index.ts:192-194 | a date entry counts exactly when it is present, defined and not empty |
| Resolve.ParseDate | index.ts:179-181 | an unparseable date is an `InvalidDate` error naming the text; otherwise the parser's value |
| Resolve.PublishedDateCases | index.ts:192-194 | the published date is `""` for a missing, undefined or empty entry, and an error exactly when a non-empty entry does not parse; with a parser that never yields `""`, an empty date arises only that way |
| Resolve.PublishedDateKept | index.ts:179-181 | a date the parser returns unchanged is kept as written |
| Resolve.LastModifiedCases | index.ts:195-197 | without a usable `last_modified_date` the published date is used; with one, its parse |
| Resolve.ResolveFields | index.ts:189-197 | the fields are the title and both dates; the first date that does not parse is the error |
| Resolve.TagsText | index.ts:249 | the tags as written, or the text `undefined` |
| Templates.CompilePage | index.ts:216-220 | four first-occurrence `replace`s in the source's order: content, title, published date, last-modified date, each on the text filled so far |
| Templates.CompileHomepage | index.ts:307 | one first-occurrence `replace` of `{{ articles }}` with the year index |
| Templates.FillFirst | index.ts:216-220 | a tag that does not occur earlier is replaced by the value where it stands, and the text around it is kept |
| Templates.PageFilled | index.ts:216-220 | a template with the four placeholders in order gets the body, title and dates in their places when no placeholder occurs earlier in the text as filled so far; the rest is kept |
| Templates.PageWithoutPlaceholders | index.ts:216-220 | a template holding none of the four placeholders is returned as it is |
| Templates.SecondTitleKept | index.ts:218 | a placeholder that occurs twice is filled once; the second occurrence stays |
| Templates.ContentCapturesTitle | index.ts:217-218 | rendered content holding `{{ title }}` receives the title, and the template's own placeholder stays unfilled |
| Templates.HomepageFilled | index.ts:307 | the homepage template gets the year index in place of its first `{{ articles }}`, and the rest is kept |
| Parsing.ParseOneCases | index.ts:101-111 | a document fails when it cannot be read or cannot be split; otherwise it keeps its path, its metadata and its rendered body |
| Parsing.ParsedSnoc | index.ts:101-112 | each pass either keeps an earlier error, stops at this document's error, or appends its article |
| Parsing.ParsedOk | index.ts:99-114 | the loop succeeds exactly when every document loads, and then gives one article per path, in order |
| Parsing.ParsedPrefixErr | index.ts:99-114 | an error in a prefix of the paths is the error of the whole loop |
| Parsing.ParsedFirstError | index.ts:99-114 | the error is that of the first document that fails |
| Parsing.JsParsedReadsOnly | index.js:82-98 | the legacy loop fails only on a document it cannot read |
| Parsing.TsParsedNeedsDelineator | index.ts:99-114 | the loop succeeds exactly when every document is readable and contains `---` |
| Parsing.ParseMdFiles | index.ts:99-114 | the loop over the disk returns the articles or the first error, as `Parsed` defines them |
| Sorting.NotPrecedesTransitive | index.ts:277-281 | "does not sort before" is transitive, so the comparison is a strict weak order |
| Sorting.SortPermutes | index.ts:277-281 | sorting is a permutation |
| Sorting.SortSorted | index.ts:277-281 | the result is ordered by the key |
| Sorting.SortStable | index.ts:277-281 | elements with equal keys keep their relative order |
| Sorting.InsertInPlace | index.ts:277-281 | one step moves an element into its place among the sorted prefix and leaves the rest of the array alone |
| Sorting.SortInPlace | index.ts:277-281 | the array ends as the stable sort of its old contents |
| Sorting.SortDistinct | index.ts:272 | sorting keeps distinct keys distinct |
| Sorting.ReversePermutes | index.ts:272 | `reverse` is a permutation |
| Sorting.ReverseSorted | index.ts:272 | reversing an ascending sequence gives a descending one |
| Sorting.ReverseInPlace | index.ts:272 | the array ends as its old contents reversed |
| Grouping.YearOf | index.ts:260 | the year is the first piece of the date split at `-` |
| Grouping.YearOfIsoDate | index.ts:260 | the year of `2024-05-01` is `2024` |
| Grouping.Groups | index.ts:260-269 | the `Map` after the grouping loop, as a sequence of groups in order of first appearance, one `has`/`get().push` or `set` per entry |
| Grouping.FindYear | index.ts:261-263 | the index of the group of the year, or -1 exactly when no group has that year |
| Grouping.AddItemNew | index.ts:265-268 | an entry of a new year opens a group at the end of the `Map` |
| Grouping.AddItemExisting | index.ts:261-264 | an entry of a known year is appended to that year's group |
| Grouping.GroupsWellGrouped | index.ts:241-270 | there is one group per year, holding exactly that year's entries in input order, and every entry's year has a group |
| Grouping.GroupYearsFromItems | index.ts:241-270 | every group's year is the year of some entry |
| Grouping.GroupsPermutes | index.ts:241-270 | grouping loses and duplicates no entry |
| Grouping.YearKey | index.ts:272 | the string the default `sort` compares for a `[year, entries]` pair: the year, a comma, then one `[object Object]` per entry, comma-separated |
| Grouping.KeyOrder | index.ts:272 | the text `year,...` orders two distinct plain years as the years themselves |
| Grouping.SortYearsDescending | index.ts:272 | the default `sort` then `reverse` puts distinct plain years in strictly descending order |
| Grouping.FlattenSort | index.ts:272 | sorting the groups keeps every entry exactly once |
| Grouping.FlattenReverse | index.ts:272 | reversing the groups keeps every entry exactly once |
| YearIndex.BulletShows | index.ts:249-251 | a bullet contains the tags, the link to the article and its title |
| YearIndex.ItemOf | index.ts:243-264 | one pass of the loop: nothing for `about`; otherwise the title and bullet, then the published date, which must parse and must not be empty |
| YearIndex.ItemOfCases | index.ts:243-264 | `about` adds nothing; another article adds its date and bullet, or stops the build with `InvalidDate` or `MissingPublishedDate` naming its title |
| YearIndex.CollectOk | index.ts:242-270 | the loop succeeds exactly when every pass does |
| YearIndex.CollectFirstError | index.ts:242-270 | the error is that of the first failing pass |
| YearIndex.ItemsFirstError | index.ts:252-259 | the homepage throws at the first article, in order, whose entry fails |
| YearIndex.AboutSkipped | index.ts:244-246 | `about` adds no entry, wherever it is |
| YearIndex.ItemsMembers | index.ts:242-270 | the homepage lists the entry of every article but `about`, and nothing else |
| YearIndex.Arrange | index.ts:277-281 | each group keeps its year and its entries, as a multiset, and its entries are sorted by descending date |
| YearIndex.LayoutYearsDescending | index.ts:272 | the years are written out in strictly descending order when they are plain |
| YearIndex.LayoutGroupContents | index.ts:272-281 | each year holds exactly its entries, in descending date order, with equal dates in discovery order |
| YearIndex.LayoutYears | index.ts:241-272 | every year of an entry has a group in the layout, and no other year does |
| YearIndex.LayoutPermutes | index.ts:241-281 | every entry is written out exactly once |
| YearIndex.HomepageMarkup | index.ts:241-297 | the markup of the years laid out from the entries, or the error of the first article whose entry fails |
| YearIndex.YearsMarkupShows | index.ts:275-297 | the markup shows every year with each of its bullets |
| YearIndex.IndexShowsEveryEntry | index.ts:241-297 | the homepage markup shows the bullet of every entry |
| YearIndex.GroupArticles | index.ts:241-270 | the grouping loop yields the groups of the entries, or the error that stops the homepage |
| YearIndex.RenderYear | index.ts:277-285 | a year's bullets, sorted in place by descending date, are concatenated in that order |
| YearIndex.RenderYears | index.ts:272-297 | sorting and reversing the groups in place, then writing them out, gives the markup of the layout |
| YearIndex.WriteYears | index.ts:275-297 | the year loop writes out each year's markup in order |
| YearIndex.BuildIndex | index.ts:241-297 | the loops compute the year index that `HomepageMarkup` defines |
| FileStore.ReadFile | index.ts:125-132 | reading a missing file is an `IOFailure` naming it; otherwise the contents |
| FileStore.RemoveTree | index.ts:120 | nothing remains inside the removed tree and everything outside it is kept |
| FileStore.SameOutsideWrite | index.ts:139-142 | writing a file inside a directory changes nothing outside it |
| FileStore.RunOutside | index.ts:187-235 | a write loop whose paths all lie inside a directory changes nothing outside it |
| FileStore.RunKeeps | index.ts:187-235 | a file that is no item's path keeps its contents |
| FileStore.RunOk | index.ts:187-235 | a confined loop succeeds exactly when every page can be made from the starting files |
| FileStore.RunFirstError | index.ts:187-235 | its error is that of the first page that cannot be made |
| FileStore.RunWrites | index.ts:187-235 | without an error, each item's path holds its page when paths are distinct, and other files are kept |
| FileStore.RunFixedOk | index.js:138-164 | a loop whose pages ignore the files succeeds exactly when every page can be made |
| FileStore.RunFixedFirstError | index.js:138-164 | its error is that of the first page that cannot be made |
| FileStore.RunFixedWrites | index.js:138-164 | such a loop writes each page to its distinct path |
| FileStore.Disk.Read | index.ts:125-132 | reading from the disk is `ReadFile` of its files |
| FileStore.Disk.Write | index.ts:139-142 | the file holds the new contents and every other file is unchanged |
| FileStore.Disk.Remove | index.ts:120 | the disk is left without the removed tree |
| Site.OutputDir | index.ts:222-232 | `<target>/about` for `about`, `<target>/content/<slug>` for any other stem |
| Site.Page | index.ts:187-220 | the fields first, then the stem's template read from the files, then the four fills; the first of these errors ends it |
| Site.OutputPathShape | index.ts:222-234 | `about` goes to `<target>/about/index.html`, any other article to `<target>/content/<slug>/index.html` |
| Site.ArticlePathsApart | index.ts:227-234 | articles with different slugs go to different files |
| Site.AboutApart | index.ts:224-231 | the `about` page and an article never share a file |
| Site.HomepageApart | index.ts:308-309 | the homepage file is never an article's file |
| Site.OutputInTarget | index.ts:222-234 | every page is written inside the target directory |
| Site.TargetPlain | index.ts:339 | for any source directory, with or without a trailing `/`, the target is `build` inside it and has no trailing `/` |
| Site.TemplateOutsideTarget | index.ts:198-215 | no template lies inside the target directory, whatever the source directory |
| Site.StemPlain | index.ts:189 | the stem of a markdown path contains no `/` |
| Site.PageFromTemplate | index.ts:198-220 | a template with the four placeholders becomes the page with the article's body, title and dates in place, when no placeholder occurs earlier in the text as filled so far |
| Site.PageOutside | index.ts:198-220 | a page does not depend on any file inside the target directory |
| Site.ArticlesConfined | index.ts:186-236 | every page lies inside the target directory and is made from files outside it |
| Site.ArticlesRunOutside | index.ts:186-236 | `createArticles` writes only inside the target directory |
| Site.ArticlesRunOk | index.ts:186-236 | `createArticles` succeeds exactly when every article's page can be made from the starting files |
| Site.ArticlesRunFirstError | index.ts:186-236 | its error is that of the first article whose page cannot be made |
| Site.ArticlesRunWrites | index.ts:186-236 | without an error, each article's file holds its page when no two share a file, and other files are kept |
| Site.CreateArticles | index.ts:186-236 | the loop over the disk leaves the files and the error that `ArticlesRun` defines |
| Site.CreateHomepage | index.ts:239-310 | the year index, then the template, then the write, as `HomepageRun` defines them |
| Site.HomepagePage | index.ts:241-307 | the year index first, then the homepage template read from the files, then the fill; an index error comes before a read error |
| Site.HomepageOutside | index.ts:300-307 | the homepage does not depend on any file inside the target directory |
| Site.HomepageListsArticle | index.ts:247-307 | the homepage contains, for every article but `about`, the link to it and its title, when the template's `{{ articles }}` is its first |
| Site.LinkReachesPage | index.ts:222-251 | the homepage's link, taken from the target directory, names the file of the article's page |
| Site.ParsedStems | index.ts:318-319 | every listed document has a non-empty stem |
| Site.HomepageRunOutside | index.ts:300-309 | writing the homepage changes nothing outside the target directory |
| Site.Build | index.ts:316-321 | the target cleared, the documents listed and parsed, then every article and then the homepage, each from the files as they are at that point |
| Site.BuildOutside | index.ts:316-327 | the build changes nothing outside the target directory |
| Site.BuildOk | index.ts:316-321 | the build succeeds exactly when every document parses, every page can be made and so can the homepage, each from the starting files |
| Site.HomepageRunKeeps | index.ts:307-309 | writing the homepage leaves every other file as it was |
| Site.BuildClears | index.ts:118-122 | whether or not the build fails, a file of the old build that is neither a page nor the homepage is gone, and a file outside the target directory is as it was |
| Site.BuildWrites | index.ts:316-321 | a successful build leaves each article's page in its file when no two share one, the homepage in `<target>/index.html`, and nothing else inside the target directory |
| Site.GenerateStaticSite | index.ts:316-327 | the build on the disk leaves the files and the error that `Build` defines |
| Legacy.SourcePathToBuildPath | index.js:129-131 | the path with `buildDir/` put before the first occurrence of `itemInSource` |
| Legacy.PathInBuild | index.js:147-154 | the rewritten path; for `about`, its first `content/` is then dropped |
| Legacy.OutputDir | index.js:155 | a page directory is never empty and ends in `/` |
| Legacy.Page | index.js:139-146 | the fields resolved and the article template filled with the body, title and both dates, in the source's order |
| Legacy.BuildPathOfDocument | index.js:129-131 | a document under `<pre>content/` moves to `<pre>build/content/` when `pre` holds no `content/` |
| Legacy.BuildPathMisplaced | index.js:129-131 | when the source directory's path holds `content/`, the page lands outside `<sourceDir>build` |
| Legacy.StemOfDocument | index.js:139 | the stem of a `.md` document in a directory with a trailing slash |
| Legacy.ArticleInBuild | index.js:153 | the rewritten path of an article other than `about` |
| Legacy.DropContent | index.js:151 | dropping the first `content/` after `<pre>build/` |
| Legacy.AboutInBuild | index.js:151 | for `about` under `<pre>content/<sub>`, the first `content/` after `<pre>build/` is dropped, giving `<pre>build/<sub>about.md`; a `content/` inside `<sub>` stays |
| Legacy.ArticlePathShape | index.js:147-157 | the page path of an article under `<pre>content/<sub>` is `<pre>build/content/<sub><slug>/index.html`, keeping its subdirectories (whether `mkdirSync` can create that directory is on the `mkdirSync` line under Left out) |
| Legacy.AboutPathShape | index.js:149-157 | `about` under `<pre>content/<sub>` is written to `<pre>build/<sub>about/index.html` |
| Legacy.HomepagePathShape | index.js:227 | the homepage goes to `<sourceDir>build/index.html` when the source path holds no `index.html` |
| Legacy.PageNotTemplate | index.js:155-157 | no page is written over a template |
| Legacy.TemplateNotInBuild | index.js:249-259 | the templates lie outside the removed build tree |
| Legacy.ArticlesRunOk | index.js:137-165 | the article loop succeeds exactly when every page can be made |
| Legacy.ArticlesRunFirstError | index.js:137-165 | its error is that of the first article whose page cannot be made |
| Legacy.ArticlesRunWrites | index.js:137-165 | without an error, each page is in its file when no two share a file |
| Legacy.AddArticles | index.js:174-220 | the year index with the compact bullets put into `{{ articles }}`, or the error that stops the homepage |
| Legacy.HomepageTemplateKept | index.js:264-265 | the homepage template read after the articles is the one that was there before them |
| Legacy.Build | index.js:240-266 | the documents parsed first; then `<sourceDir>build` removed, the article and `about` templates read, the articles written, the homepage template read and the homepage written |
| Legacy.HomepageRunKeeps | index.js:223-234 | writing the homepage leaves every other file as it was |
| Legacy.AfterParseKeeps | index.js:259-265 | after the removal, the templates, the articles and the homepage leave every other file as it was |
| Legacy.BuildClears | index.js:259 | a file that is neither a page nor the homepage is gone from `<sourceDir>build` once the documents parse, and outside it is as it was |
| Legacy.BuildOk | index.js:240-266 | the build succeeds exactly when every document is readable, the three templates exist, and every page and the homepage can be made |
| Legacy.BuildWrites | index.js:240-266 | a successful build leaves each page and the homepage in their own files when no two share one; every other file is gone from `<sourceDir>build` and outside it is as it was |
| Legacy.CreateArticles | index.js:137-165 | the loop over the disk leaves the files and the error that `ArticlesRun` defines |
| Legacy.AddArticlesLoop | index.js:174-220 | the year index put into the template, or the error that stops the homepage |
| Legacy.CreateHomepage | index.js:223-234 | on success the homepage file holds the page and nothing else changes; on an error the disk is unchanged |
| Legacy.GenerateStaticSite | index.js:240-269 | the build on the disk leaves the files and the error that `Build` defines |

## Left out

- The markdown renderer (markdown-it with emoji and shiki) is the parameter `render`.
- `new Date(...)` and `toISOString` are the parameter `parse`. Time zones and the platform's date grammar are not modelled.
- The recursive `readdirSync` listing is an input. It is not derived from the disk map.
- `mkdirSync` is not modelled. Directories are implicit in the file map, so the failures of the legacy non-recursive `mkdirSync` are not captured: a nested content directory, or two pages with one directory.
- `fs.writeFile` is asynchronous and its callback only logs. The model writes at once and never fails, so the order of completion is not modelled. Nor is what a later throw does to the queued writes: when a later article's `InvalidDate` or the homepage's `MissingPublishedDate` is thrown uncaught in the same synchronous run (index.ts:139-152, index.js:157), the writes queued before it never complete, but the model's error `Outcome` holds those pages.
- `fs.cpSync` of the assets directory and `copyToBuild` are not modelled. They copy a tree verbatim and come after every page is written.
- `parseArgs`, `process.argv` and the global `SOURCEDIR`/`TARGETDIR` are left out. The source directory is a parameter, and the target directory is `<sourceDir>/build`.
- Console output is left out.
- `rmSync` of `<sourceDir>build/` is modelled as removing the tree `<sourceDir>build`.
- `JsString.ReplaceFirst`: `$` patterns in the replacement text are not interpreted.
- `JsString.ToUpperChar` and `TitleCase.IsWordChar` cover ASCII only. Unicode case mapping is not modelled.
- `JsString.IsSpace` is ASCII white space only, and so are `JsString.Trim` and the `\S` of `TitleCase.Scan`. JavaScript's `trim` and `\s` also match U+00A0, U+FEFF, U+2028 and the other Unicode spaces.
- `Paths.Basename` does not drop trailing `/`s as Node's `basename` does. The generator takes basenames only of file paths, which never end in `/`.
- `Paths.PathJoin`: path normalisation (`.`, `..`, repeated `/`) is not modelled.
- `Sorting.SortInPlace` is an insertion sort. It stands for the engine's stable `Array.prototype.sort`; only the result is modelled, not the algorithm.
- `YearIndex.Arrange` compares dates as text, where the source subtracts `Date` values. The two agree for the four-digit `YYYY-MM-DD` dates of years 0 to 9999. Dates before year 0 come out of `toISOString` as `-YYYYYY-MM-DD`. They all fall in the year group `""`, and inside it text order reverses date order: the model lists `-000002-01-01` before `-000001-05-01`, where the source lists it after.
- `Grouping.Groups` keeps the JavaScript `Map` as a sequence of groups in insertion order.
- `YearIndex.LayoutPermutes` says "exactly once" as a multiset equality of entries. It does not count occurrences of a bullet's text in the markup.
- `Site.ArticlesRunWrites`, `Site.BuildWrites`, `Legacy.ArticlesRunWrites`, `Legacy.BuildWrites`, `FileStore.RunWrites` and `FileStore.RunFixedWrites` assume that no two pages share a file. `Resolve.SlugCollision` shows that two pages can share one. The model then lets the later page win. The source does not: in `index.js` the second page's `mkdirSync` throws `EEXIST` (index.js:156), and in `index.ts` the asynchronous writes finish in no fixed order (index.ts:139-152).
