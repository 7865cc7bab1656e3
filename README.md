# Node-RED website migration and blog helpers, modelled in Dafny

This project models the logic of the Node-RED website's migration scripts and blog helpers:

- **Rewriting frontmatter.** `scripts/migrate-docs.ts`, `scripts/migrate-blog.ts` and `scripts/migrate-about.ts` rewrite the frontmatter of every Markdown page when it moves into the new site.
  - The leading block `---\n…\n---` is found with the pattern `^---\n([\s\S]*?)\n---`.
  - Single-line fields are read from it with `key:\s*["']?(.+?)["']?\s*$` (multiline mode).
  - A canonical block is built in a fixed field order with defaults. The body is appended unchanged.
  - The docs script also looks up a sidebar order in its `sectionOrders` table.
  - The docs and about scripts walk a directory tree with `processDirectory`. The blog script runs a flat loop and counts the posts.
- **Blog identity and order.** In `src/utils/blog.ts`, a post's date, URL and list position come from its identifier `YYYY-MM-DD-slug`. The RSS endpoint `src/pages/feed.xml.ts` repeats that derivation. The unit test `tests/unit/blog-url.test.ts` has its own parser and examples.
- **Build verification.** `scripts/verify-urls.ts` turns the built HTML files into URLs and counts them per section. It then computes a summary and decides the exit code.

Modules, one per source file, plus one each for shared pieces:

| file | module | models |
|---|---|---|
| `wrappers.dfy` | `Wrappers` | `Option` (JavaScript `undefined`/`null`, a failed match) |
| `strings.dfy` | `Strings` | the JavaScript string operations used: `trim`, `indexOf`, `replace` with a string pattern, `split`, `startsWith`/`endsWith`, number to string, the `"` escape |
| `frontmatter.dfy` | `Frontmatter` | the two regular expressions, matched exactly, and the quote stripping of blog and about titles |
| `file_tree.dfy` | `FileTree` | source trees as values; the destination as a class whose directories and files `mkdirSync`/`writeFileSync` change in place |
| `migrate_docs.dfy` | `MigrateDocs` | `sectionOrders`, `getOrder`, `transformFrontmatter` |
| `migrate_blog.dfy` | `MigrateBlog` | `transformBlogFrontmatter` and the migration loop with its `count` |
| `migrate_about.dfy` | `MigrateAbout` | `transformAboutFrontmatter` |
| `walker.dfy` | `Walker` | `processDirectory`, which the docs and about scripts share; the rewrite is a parameter |
| `calendar.dfy` | `Calendar` | `new Date("YYYY-MM-DD").getTime()` |
| `blog.dfy` | `Blog` | `parseBlogDate`, `parseBlogPosts`, `sortBlogPosts`, `blogPostUrl` |
| `feed.dfy` | `Feed` | the item list of the RSS endpoint |
| `blog_url_test.dfy` | `BlogUrlTest` | `parseBlogFilename` and the test's examples |
| `verify_urls.dfy` | `VerifyUrls` | `countHtmlFiles`, `verifySection`, the summary and the exit code |

Where the code does something other than its names and comments suggest, the model follows the code:

- `getOrder` removes `/index` from a name that is always a bare file name. That replacement never applies, so only the first `.md` is removed.
- The closing `\n---` of a frontmatter block need not be a whole line. `\n----` or `\n---x` also closes the block, and the characters after `---` start the body.
- The field pattern can match `key:` anywhere in the block, for example `subtitle:` for `title`. When `\s*` crosses a line break, it captures the next line.
  - The model keeps both behaviours.
  - The read-back lemmas state the conditions under which a rewritten block reads back to the value written.
- `new Date(…)` follows Node's engine. It rejects a month outside 1–12 or a day outside 1–31. A day past the end of a short month runs on into the next month.

## Model

| member | source | states |
|---|---|---|
| Strings.ReplaceFirst | scripts/migrate-docs.ts:59 | `replace` with a string pattern leaves a string without the pattern unchanged |
| Strings.ReplaceFirstAt | scripts/migrate-docs.ts:59 | `replace` with a string pattern replaces the first occurrence only |
| Strings.IndexOfFrom | scripts/migrate-docs.ts:59 | the index found holds the pattern, and no earlier index from the start point does; `None` means no index holds it |
| Strings.Trim | scripts/migrate-docs.ts:79 | `trim` yields a slice of its input with no whitespace at either end, and only whitespace was cut off |
| Strings.TrimOfTrimmed | scripts/migrate-docs.ts:79 | trimming a trimmed string changes nothing |
| Strings.Escape | scripts/migrate-docs.ts:91 | the escape keeps the last character, turns a leading `"` into a backslash and keeps any other first character, and adds no character but backslashes |
| Strings.EscapeConcat | scripts/migrate-docs.ts:91-93 | the escape of a concatenation is the concatenation of the escapes, so it works character by character |
| Strings.EscapeChar | scripts/migrate-docs.ts:91-93 | a `"` becomes `\"` and every other character is kept |
| Strings.EscapeLength | scripts/migrate-docs.ts:91-93 | the escaped value is longer by the number of `"` in the value |
| Strings.UnescapeEscape | scripts/migrate-docs.ts:91-93 | reading `\"` back as `"` recovers every value from its escaped form, backslashes included |
| Strings.EscapeInjective | scripts/migrate-docs.ts:91-93 | different values have different escaped forms |
| Strings.EscapeWithoutQuotes | scripts/migrate-docs.ts:91 | a value without `"` is not changed by the escape |
| Strings.Split | scripts/migrate-docs.ts:85-87 | `split('/')` yields at least one piece, none holding `/` |
| Strings.SplitJoins | scripts/migrate-docs.ts:85-87 | the pieces of `split('/')` joined with `/` give back the input |
| Strings.SplitAfterFirst | scripts/migrate-docs.ts:85-86 | the first piece of `a/b` is `a` when `a` has no `/` |
| Strings.NatToString | scripts/migrate-docs.ts:96 | `${order}` is a non-empty digit string without a leading zero that denotes the order |
| Frontmatter.MatchBlock | scripts/migrate-docs.ts:68-75 | a match splits the content into `---\n`, the block, the first `\n---` from index 4, and the body; no match means no leading `---\n` or no later `\n---` |
| Frontmatter.MatchBlockFinds | scripts/migrate-docs.ts:68-75 | content built from `---\n`, a block with no earlier closer, `\n---` and a body is matched into that block and that body |
| Frontmatter.RebuildFinds | scripts/migrate-docs.ts:68-75 | a block with no line break before `-` is found again, with the same body, when the block is read back |
| Frontmatter.FieldValue | scripts/migrate-docs.ts:78-79 | the captured value, trimmed, has no whitespace at the ends and no line break |
| Frontmatter.FieldOr | scripts/migrate-docs.ts:78-82 | a field or its default is trimmed and has no line break when the default is trimmed and has none |
| Frontmatter.FieldAbsent | scripts/migrate-docs.ts:78-82 | a block that never holds `key:` has no match for the field, which then takes its default |
| Frontmatter.SearchFinds | scripts/migrate-docs.ts:78 | the first `key:` whose capture succeeds decides the field |
| Frontmatter.SearchAbsent | scripts/migrate-docs.ts:78 | without `key:` the field is missing |
| Frontmatter.ReadQuotedField | scripts/migrate-docs.ts:78-79 | a line `key: "v"` with no earlier `key:` reads back as `v` |
| Frontmatter.ReadLaterQuotedField | scripts/migrate-docs.ts:81-82 | a later line `key: "v"` reads back as `v` when the lines before it do not contain `key:` |
| Frontmatter.QuotedFieldPresent | scripts/migrate-docs.ts:78 | any text with a line `key: "v"` has the field `key` |
| Frontmatter.CaptureQuoted | scripts/migrate-docs.ts:78 | after `key:`, the text ` "v"` followed by a line end captures exactly `v` |
| Frontmatter.QuotedLineLacks | scripts/migrate-docs.ts:91-93 | a built line `key: "v"` does not contain a pattern that neither `v` nor `key:` contains |
| Frontmatter.StripOuterQuote | scripts/migrate-blog.ts:20 | at most one leading and one trailing quote are removed; both go exactly when the string starts and ends with one; nothing changes when neither end is a quote |
| Frontmatter.StripQuotedPair | scripts/migrate-blog.ts:20 | a value between two quotes comes out bare |
| Frontmatter.StrippedTitle | scripts/migrate-blog.ts:19-20 | the blog and about title has no line break |
| Frontmatter.StrippedTitleAbsent | scripts/migrate-blog.ts:19-20 | a block without `title:` gets the title `Untitled` |
| FileTree.Join | scripts/migrate-docs.ts:116 | `join` joins with one `/`, and returns the second part unchanged after an empty base |
| FileTree.Prefixes | scripts/migrate-docs.ts:112 | `mkdirSync` with `recursive` makes exactly the path and the directories above it |
| FileTree.Destination.MakeDirectory | scripts/migrate-docs.ts:112 | the path and its parents exist afterwards, and files are unchanged |
| FileTree.Destination.WriteFile | scripts/migrate-docs.ts:121 | writing creates or replaces one file in an existing directory and changes nothing else |
| MigrateDocs.GetOrder | scripts/migrate-docs.ts:58-64 | an order exists exactly when the section is in the table and the page name is in that section, and it is the table's number, 0 included |
| MigrateDocs.MarkdownPageOrder | scripts/migrate-docs.ts:58-64 | for a file `a.md`, the order is the table's entry for `a` in the section, or none when there is no entry |
| MigrateDocs.GetOrderExamples | scripts/migrate-docs.ts:8-24 | `('getting-started', 'docker.md')` has order 2 |
| MigrateDocs.GetOrderExample2 | scripts/migrate-docs.ts:8-24 | `('getting-started', 'index.md')` has order 0, which is kept distinct from having no order |
| MigrateDocs.GetOrderExample3 | scripts/migrate-docs.ts:58-64 | an unknown section has no order |
| MigrateDocs.PageNameOfMarkdown | scripts/migrate-docs.ts:59 | the page name of `a.md` is `a`; the `/index` replacement never applies to a file name |
| MigrateDocs.ReadDocFields | scripts/migrate-docs.ts:77-88 | title and description are trimmed, single-line values; the order is looked up with the first path segment and the file name |
| MigrateDocs.AbsentDocFields | scripts/migrate-docs.ts:78-82 | a block without `title:` gets `Untitled`; one without `description:` gets an empty description |
| MigrateDocs.DescriptionOnlyBlock | scripts/migrate-docs.ts:78-97 | a top-level page whose block is only `description: "v"` gets the fields `Untitled`, `v` and no order, rendered as a `title: "Untitled"` line followed by the description line |
| MigrateDocs.RootPageHasNoOrder | scripts/migrate-docs.ts:85-88 | a page straight under the root gets no sidebar order |
| MigrateDocs.NestedPageOrder | scripts/migrate-docs.ts:85-88 | a nested page is looked up under its top-level directory by its own file name |
| MigrateDocs.RenderedShape | scripts/migrate-docs.ts:91-98 | the built block has no line break before a `-`, so it holds no early closer |
| MigrateDocs.SidebarShape | scripts/migrate-docs.ts:95-97 | the sidebar lines hold no early closer and no `p` |
| MigrateDocs.TransformFrontmatter | scripts/migrate-docs.ts:66-101 | content without a block comes back unchanged; otherwise the output's block is the rendered fields and its body is the original body, byte for byte |
| MigrateDocs.ReadBackDocTitle | scripts/migrate-docs.ts:91 | the title line reads back as the escaped title |
| MigrateDocs.ReadBackDocDescription | scripts/migrate-docs.ts:92-94 | a non-empty description reads back as its escaped value when the title does not contain `description:` |
| MigrateDocs.ReadBackDocNoDescription | scripts/migrate-docs.ts:92-94 | an empty description writes no line, so none is read back |
| MigrateDocs.TransformIdempotent | scripts/migrate-docs.ts:66-101 | running the rewrite twice gives the output of once, when title and description hold no `"`, the title is not empty and the title does not contain `description:` |
| MigrateBlog.ReadBlogFields | scripts/migrate-blog.ts:18-29 | every field read from a post is a single line |
| MigrateBlog.AbsentBlogFields | scripts/migrate-blog.ts:18-29 | a missing title gives `Untitled`, a missing author `nick`, and a missing description or image an empty value |
| MigrateBlog.RenderedBlogShape | scripts/migrate-blog.ts:32-40 | the built block holds no early closer |
| MigrateBlog.TransformBlogFrontmatter | scripts/migrate-blog.ts:7-43 | content without a block comes back unchanged; otherwise the output's block is the rendered fields and the body is unchanged |
| MigrateBlog.RenderedHasRequiredFields | scripts/migrate-blog.ts:32-33 | a built post block has both a `title` and an `author` field |
| MigrateBlog.RenderedHasTitle | scripts/migrate-blog.ts:32 | a built post block has a `title` field |
| MigrateBlog.RenderedHasAuthor | scripts/migrate-blog.ts:33 | a built post block always has an `author` field |
| MigrateBlog.RequiredFieldsPresent | scripts/migrate-blog.ts:32-33 | every rewritten post carries the `title` and `author` fields that the blog collection requires |
| MigrateBlog.ReadBackAuthor | scripts/migrate-blog.ts:33 | the author, written unescaped, reads back unchanged |
| MigrateBlog.ReadBackBlogTitle | scripts/migrate-blog.ts:19-32 | a plain title reads back unchanged, and quote stripping leaves it alone |
| MigrateBlog.MigrateEntry | scripts/migrate-blog.ts:53-63 | one entry: a `.md` file is rewritten into the destination and counts 1; anything else is skipped and counts 0 |
| MigrateBlog.MigratePosts | scripts/migrate-blog.ts:45-64 | the loop makes the destination, writes the rewrite of exactly the `.md` entries, and counts them |
| MigrateBlog.PostWritesFromEntries | scripts/migrate-blog.ts:52-61 | every file written comes from a `.md` entry of the same name |
| MigrateBlog.EachPostWritten | scripts/migrate-blog.ts:52-61 | every `.md` entry is written under its name with its rewritten content |
| MigrateBlog.NameNotWritten | scripts/migrate-blog.ts:53-61 | no file is written under a name that is not an entry |
| MigrateBlog.CountIsFilesWritten | scripts/migrate-blog.ts:50-63 | `count` equals the number of files written |
| MigrateAbout.ReadAboutFields | scripts/migrate-about.ts:18-26 | every field read from a page is a single line |
| MigrateAbout.AbsentAboutFields | scripts/migrate-about.ts:18-26 | a missing title gives `Untitled`, and a missing description or layout an empty value |
| MigrateAbout.RenderedAboutShape | scripts/migrate-about.ts:29-36 | the built block holds no early closer |
| MigrateAbout.TransformAboutFrontmatter | scripts/migrate-about.ts:7-39 | content without a block comes back unchanged; otherwise the output's block is the rendered fields and the body is unchanged |
| MigrateAbout.RenderedHasTitle | scripts/migrate-about.ts:29 | a built page block has a `title` field |
| MigrateAbout.RequiredFieldPresent | scripts/migrate-about.ts:29 | every rewritten page carries the `title` that the about collection requires |
| MigrateAbout.ReadBackAboutTitle | scripts/migrate-about.ts:19-29 | a plain title reads back unchanged through the quote stripping |
| MigrateAbout.ReadBackLayout | scripts/migrate-about.ts:25-34 | the layout, written unescaped, reads back unchanged when neither title nor description contains `layout:` |
| Walker.ProcessDirectory | scripts/migrate-docs.ts:103-125 | the walk adds exactly the directories and files of its specification functions to the destination |
| Walker.ProcessEntry | scripts/migrate-docs.ts:106-123 | one entry: a directory is made and walked; a `.md` file is rewritten to the mirrored path; anything else is skipped |
| Walker.WriteMarkdown | scripts/migrate-docs.ts:119-121 | a file's directory is made, then the file is written |
| Walker.Migrate | scripts/migrate-docs.ts:127-132 | the root is made, then the source root is walked with an empty base path |
| Walker.MigrateDocsTree | scripts/migrate-docs.ts:127-132 | the docs script is the walk with the docs rewrite |
| Walker.MigrateAboutTree | scripts/migrate-about.ts:65-70 | the about script is the walk with the about rewrite |
| Walker.TreeWritesSound | scripts/migrate-docs.ts:114-121 | every file written is a source `.md` file at its mirrored path, rewritten with its path relative to the root |
| Walker.EntryWritesSound | scripts/migrate-docs.ts:110-121 | the same for one entry, whose writes all lie under its own name |
| Walker.TreeWritesComplete | scripts/migrate-docs.ts:114-121 | every source `.md` file is written at its mirrored path with the rewrite of its content and its root-relative path |
| Walker.EntryWritesComplete | scripts/migrate-docs.ts:110-121 | the same for one entry |
| Walker.TreeDirsComplete | scripts/migrate-docs.ts:110-113 | every source directory is made in the destination, even an empty one |
| Walker.EntryDirsComplete | scripts/migrate-docs.ts:110-113 | the same for one entry |
| Walker.TreeDirsSound | scripts/migrate-docs.ts:110-120 | only the destination directory, its parents and the mirrored source directories are made |
| Walker.EntryDirsSound | scripts/migrate-docs.ts:110-120 | the same for one entry |
| Calendar.IsoDateValue | src/utils/blog.ts:21 | a date string has a time value exactly when the month is 1–12 and the day 1–31, and the value is a whole number of days |
| Calendar.DayNumberOrdered | src/utils/blog.ts:21 | on real calendar dates, day numbers are ordered as year, month, day |
| Calendar.IsoDateOrdered | src/utils/blog.ts:21 | on real calendar dates, time values are ordered as the dates are |
| Calendar.EpochExample | src/utils/blog.ts:21 | `1970-01-01` is time value 0 |
| Calendar.RecentExample | tests/unit/blog-url.test.ts:13-22 | `2024-06-20` is 1718841600000 ms |
| Calendar.OlderExample | tests/unit/blog-url.test.ts:33-42 | `2013-10-16` is 1381881600000 ms |
| Calendar.InvalidMonthExample | src/utils/blog.ts:21 | month 13 gives an Invalid Date |
| Blog.ParseBlogDate | src/utils/blog.ts:17-24 | a dated identifier is split into 4-, 2- and 2-digit strings and a non-empty single-line slug that spell it back, with the date of those strings; any other identifier gives 2024/01/01, `now` and the identifier as slug |
| Blog.ParseDatedId | src/utils/blog.ts:18-21 | the parts of a dated identifier, leading zeros kept, are what `parseBlogDate` returns |
| Blog.ParsePost | src/utils/blog.ts:27-30 | a parsed post keeps the entry's identifier and data and carries `parseBlogDate` of its identifier |
| Blog.ParseBlogPosts | src/utils/blog.ts:26-31 | one parsed post per entry, in the same order, each with `parseBlogDate` of its identifier |
| Blog.Insert | src/utils/blog.ts:34 | inserting adds exactly the one post |
| Blog.SortBlogPosts | src/utils/blog.ts:33-35 | the sorted copy is a permutation of the input |
| Blog.InsertSorted | src/utils/blog.ts:34 | inserting into a newest-first list keeps it newest first |
| Blog.InsertWithKey | src/utils/blog.ts:34 | an inserted post goes after the posts of its own date |
| Blog.SortSorted | src/utils/blog.ts:34 | the result is newest first |
| Blog.SortStable | src/utils/blog.ts:34 | posts of equal date keep their input order |
| Blog.StableOrderUnique | src/utils/blog.ts:34 | two newest-first, stable arrangements of the same posts are equal |
| Blog.SortUnique | src/utils/blog.ts:33-35 | any newest-first, stable permutation of the input is the sorted copy |
| Blog.UrlRoundTrip | src/utils/blog.ts:45-47 | a dated post's identifier is recovered from its `blogPostUrl` |
| Blog.UrlInjective | src/utils/blog.ts:45-47 | two dated posts with the same URL have the same identifier |
| Blog.FallbackCollision | src/utils/blog.ts:17-24 | an undated identifier `a` gets the URL of the dated `2024-01-01-a` |
| Blog.UrlOfDatedId | src/utils/blog.ts:45-47 | the URL of a dated post is `/blog/y/m/d/slug/` of its identifier's parts |
| Blog.UrlExample | src/utils/blog.ts:45-47 | `2024-06-20-version-4-0-released` gets `/blog/2024/06/20/version-4-0-released/` |
| Feed.FeedPostIsParsePost | src/pages/feed.xml.ts:11-25 | the endpoint's copy of the derivation is `parseBlogDate`, fallback included |
| Feed.FeedPosts | src/pages/feed.xml.ts:11-25 | one derived post per entry, in order |
| Feed.FeedPostsAreParsed | src/pages/feed.xml.ts:11-25 | the endpoint's derived list is `parseBlogPosts` |
| Feed.Items | src/pages/feed.xml.ts:32-37 | one item per sorted post, in the same order |
| Feed.FeedItems | src/pages/feed.xml.ts:10-38 | exactly one item per post |
| Feed.FeedFollowsBlogOrder | src/pages/feed.xml.ts:26-37 | item i is post i of `sortBlogPosts(parseBlogPosts(…))`: its title, its date, its description or `''`, and its `blogPostUrl` |
| Feed.FeedNewestFirst | src/pages/feed.xml.ts:26 | items come newest first |
| BlogUrlTest.ParseBlogFilename | tests/unit/blog-url.test.ts:3-10 | a dated file name gives its parts and their date; any other gives `null` |
| BlogUrlTest.AgreesWithParseBlogDate | tests/unit/blog-url.test.ts:3-10 | on dated names the test helper and `parseBlogDate` agree field for field |
| BlogUrlTest.UndatedDiffers | tests/unit/blog-url.test.ts:3-10 | on other names the helper gives `null` while `parseBlogDate` falls back |
| BlogUrlTest.ParseParts | tests/unit/blog-url.test.ts:3-10 | the parts of a dated name are what the helper returns |
| BlogUrlTest.StandardFilename | tests/unit/blog-url.test.ts:13-22 | the standard file name parses as the test expects |
| BlogUrlTest.UrlPath | tests/unit/blog-url.test.ts:24-31 | its URL is `/blog/2024/06/20/version-4-0-released/` |
| BlogUrlTest.OlderFilename | tests/unit/blog-url.test.ts:33-42 | the 2013 file name parses as the test expects |
| BlogUrlTest.InvalidFilename | tests/unit/blog-url.test.ts:44-47 | `invalid-filename` gives `null` |
| VerifyUrls.UrlOf | scripts/verify-urls.ts:39-40 | every URL ends with `/` |
| VerifyUrls.IndexPageUrl | scripts/verify-urls.ts:39-40 | the `index.html` of a directory gets the directory path plus `/` |
| VerifyUrls.OtherPageUrl | scripts/verify-urls.ts:39-40 | any other page gets its path plus `/` |
| VerifyUrls.UrlCollector.Walk | scripts/verify-urls.ts:29-44 | the walk appends the URLs of exactly the `.html` files, in order |
| VerifyUrls.UrlCollector.Visit | scripts/verify-urls.ts:35-41 | one entry: a directory is walked with the joined path; an `.html` file pushes its URL; anything else adds nothing |
| VerifyUrls.CountHtmlFiles | scripts/verify-urls.ts:26-48 | a missing directory gives no URLs; otherwise the URLs of its `.html` files |
| VerifyUrls.HtmlUrlsCount | scripts/verify-urls.ts:35-41 | each `.html` file contributes exactly one URL |
| VerifyUrls.VerifySection | scripts/verify-urls.ts:50-58 | `total` is the minimum and `found` the number of pages; `missing` is empty exactly when the minimum is met, and otherwise holds the one message |
| VerifyUrls.RoundedTenths | scripts/verify-urls.ts:74 | the tenths are the nearest whole number to 1000·found/expected, halves rounding up |
| VerifyUrls.Summarize | scripts/verify-urls.ts:65-75 | 201 expected pages; complete is the sum found; failed is 0 exactly when the total is met and otherwise the shortfall; the percentage is rounded to tenths |
| VerifyUrls.ExitCode | scripts/verify-urls.ts:90-96 | exit code 0 exactly when the percentage is at least 100, otherwise 1 |
| VerifyUrls.PassIff | scripts/verify-urls.ts:90-96 | the run passes exactly when at least 201 pages were found, which is when no page has failed |
| VerifyUrls.PercentExample | scripts/verify-urls.ts:73-74 | 190 pages give 94.5 % and 11 failed |
| VerifyUrls.ShortSectionCanPass | scripts/verify-urls.ts:56-96 | a section below its minimum does not fail a run whose total is reached |
| VerifyUrls.Run | scripts/verify-urls.ts:60-96 | the script counts each section's pages; each section record carries its category, its minimum (138, 52, 11) and a shortfall message exactly when fewer pages were found; the summary is computed from the three records, and the exit code is 0 exactly when at least 201 pages were found, otherwise 1 |

## Left out

- File system, console and exit. `readdirSync`, `statSync`, `readFileSync`, `existsSync`, `writeFileSync` and `mkdirSync` act on in-memory trees and on the `Destination` class. Console output and the "no frontmatter" warnings are not modelled. The exit code is a returned value, and the status JSON is a returned record.
- File paths. The scripts' absolute source and destination directories are parameters.
- `path.join` normalisation. `join` is modelled as joining with one `/`. Node turns `./dist/docs` into `dist/docs`, so on a real run `replace(DIST_DIR, '')` finds nothing in the paths it is given. The model keeps `./dist` in the path, so `VerifyUrls.IndexPageUrl` and `VerifyUrls.OtherPageUrl` describe the rewrite as written for paths that start with `./dist`.
- Text encoding. Strings are sequences of characters, not UTF-16 code units.
- JavaScript's prototype chain. `sectionOrders` is a finite map, so a name such as `constructor` finds no order.
- `Walker.TreeWritesSound` and `Walker.TreeWritesComplete` assume a well-formed tree: non-empty names, distinct within a directory, as `readdirSync` returns them.
- `MigrateBlog.MigratePosts` requires that no directory in the posts folder has a name ending in `.md`. `readFileSync` would throw on such a directory.
- Dates. `new Date()` is the parameter `now`, one value for a whole run; a real run reads the clock once per undated post. A date-only string is read as midnight UTC.
- `formatBlogDate`. It depends on the locale data of `toLocaleDateString`, so it is left out.
- `Blog.SortBlogPosts` requires every date to be valid, and so do `Feed.FeedItems`, `Feed.Items`, `Feed.FeedFollowsBlogOrder` and `Feed.FeedNewestFirst`, which sort the same posts. An Invalid Date makes the comparator return NaN, and the order `sort` then produces is not defined.
- The RSS call and the collection. `rss(…)`, `getCollection` and the channel fields are not modelled. Collection entries are modelled as an identifier plus frontmatter data.
- Floating point. The percentage is computed in integer tenths, as the nearest whole number to 1000·found/expected. With 201 expected pages that quotient is never exactly halfway between two integers.
- The per-section percentages printed to the console and the `lastRun` timestamp are not modelled.
- `MigrateDocs.TransformIdempotent` needs a non-empty title. `title: " "` yields an empty title, and on the second run the written `title: ""` reads back as `"`.
