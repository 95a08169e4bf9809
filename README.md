# WebsiteToMongo crawler core, modelled in Dafny

WebsiteToMongo crawls a website and writes a record for each page into a
MongoDB collection. It can also crawl a directory of saved pages. A settings
file sets up the crawl:

- which file types to download and which link types to follow;
- which paths to index and which to leave out;
- which CSS selectors a page must contain, or must not contain;
- which fields each record holds.

A record field is either a default (`$fileType`, `$size`, `$fileName`,
`$filePath`), a quoted constant, or an extraction expression such as
`child(0)+p`. The expression walks the page's element tree.

This project models the three classes that make up that core:

- `Queue`: the fixed-capacity circular buffer of URLs still to visit.
  Module `WorkQueue`, class `Queue` over an `array<string>`.
- `Rules`: the settings and the decisions taken from them. Module
  `RuleEngine`, class `Rules`, holds the static settings and the loader's
  `init`/`parseIndex`/`parseRuleName`. The pure predicates are Dafny
  functions over a `Config` value. The iterator loops are methods proved
  against them. Two of its functions get modules of their own:
  - `Extraction`: `parseCode`, which evaluates extraction expressions;
  - `Records`: `buildBSON`, which builds the insertion-ordered record.
- `WebDownloader`: the crawl itself. Module `Crawler`, class
  `WebDownloader`, with fields:
  - `linksFollowed` and `downloadedFiles`: sets;
  - `homeURL` and `workingDir`;
  - the `linksToFollow` queue;
  - the records inserted so far, in order.

  The rule set is the constant `config`, a snapshot of `Rules`' static
  state, which the crawl only reads. Three ghost logs, `fetched`, `saved`
  and `rounds`, record which pages were fetched, which files were saved and
  which URL each round of the crawl loop took, in which mode. They are there
  to state the central invariants:
  - no page is fetched twice and no file is saved twice;
  - every fetched page lies under `homeURL`;
  - the crawl starts from the homepage and runs in the configured mode.

`Strings` models the few `java.lang.String` operations the code relies on:
`indexOf`, `contains`, `lastIndexOf`, the `substring` cuts, and ASCII
`toLowerCase`. `Html` models the jsoup element tree the extraction walks.

The outside world is a parameter, the `Crawler.Web` oracle:

- jsoup's `select` and `absUrl`, and the page a URL fetches;
- the bytes a `ByteBuffer` reads;
- whether a file write succeeds;
- the size formatter;
- the integer parse of a `child(i)` argument.

A Java exception that escapes a method becomes `Fail(name)` of a `Result`.
The exceptions are `StringIndexOutOfBoundsException`, `NullPointerException`
and `IndexOutOfBoundsException`. A failed call ends the crawl, as the
uncaught exception ends the program.

Two properties of the code are mirrored, not corrected:

- The `websiteURL` rule writes to `saveType` (`main/Rules.java:150-151`), so
  `websiteURL` is never set. `WebDownloader.withoutHomeURL` therefore raises
  a NullPointerException on any URL containing "http". The model keeps
  `websiteURL` as `None` (`RuleEngine.WebsiteURLNeverSet`), and
  `Crawler.HttpLinkEndsFollowLinks` shows the consequence: the first such link
  ends `followLinks`.
- For a file path, `withoutHomeURL` keeps the last character of `homeURL`
  (`main/WebDownloader.java:463`). `Crawler.HomePath` states this.

## Model

| member | source | states |
|---|---|---|
| WorkQueue.Queue.constructor | main/Queue.java:18-22 | an empty queue with capacity `queueSize`, `start = 0`, `end = -1`, `size = 0` |
| WorkQueue.Queue.Enqueue | main/Queue.java:29-47 | not full: `s` is appended to the abstract contents and written at `nextI(end)`, and no other slot changes. Full: the "Queue is full" message is returned and nothing changes. The circular-buffer invariant is kept |
| WorkQueue.Queue.Dequeue | main/Queue.java:53-64 | non-empty: returns the oldest element and removes it, and `start` advances by `nextI`. Empty: returns the "Queue is empty" message and nothing changes. The array is untouched |
| WorkQueue.Queue.IsEmpty | main/Queue.java:102-105 | true exactly when the abstract contents are empty |
| WorkQueue.Queue.IsFull | main/Queue.java:117-120 | true exactly when the contents fill the array |
| WorkQueue.Queue.NextI | main/Queue.java:108-111 | from any index in `-1 .. length-1`, the next slot, wrapping at the end; always a valid index |
| WorkQueue.JavaRem | main/Queue.java:110 | Java's `%`: equal to Dafny's for a non-negative dividend; for a negative one, the unique value in `(-b, 0]` that differs from the dividend by a multiple of `b` |
| WorkQueue.Queue.ToString | main/Queue.java:70-80 | the contents, oldest first, each followed by a newline |
| WorkQueue.Queue.Perform | main/Queue.java:29-64 | a sequence of enqueue/dequeue calls leaves the contents and outputs given by the abstract `Replay` of the same calls |
| WorkQueue.Fifo | main/Queue.java:29-64 | when no enqueue meets a full queue, everything dequeued, followed by what remains, equals the initial contents followed by everything enqueued (first in, first out) |
| WorkQueue.FifoFromEmpty | main/Queue.java:29-64 | from an empty queue, what comes out is a prefix of what went in |
| Strings.NextToken | main/Rules.java:399-400 | `getToken` into a fresh token, as read here: the token never holds the delimiter; with a delimiter, token, delimiter and rest rebuild the buffer; without one the token is the whole buffer and the rest is empty (an empty buffer yields an empty token); the rest is shorter than a non-empty buffer |
| Strings.NextTokenSplits | main/Rules.java:399-400 | a token read from `a + delim + b`, with no delimiter in `a`, is `a`, and the rest is `b` |
| Strings.NextTokenSplit | main/Rules.java:206-213 | successive tokens are the delimiter-separated segments of the buffer, empty segments included |
| RuleEngine.AddProperties | main/Rules.java:202-215 | the do-while loop, reusing one token buffer, adds to the set exactly what `Added("", property)` describes: each token read is added, an exhausted property leaves the token as it was, and the loop stops once a token equals the one before it |
| RuleEngine.AddedSegments | main/Rules.java:206-214 | on a non-empty buffer with no two equal segments in a row and a first segment other than the previous token, exactly the segments read before the buffer is exhausted are added (all of the comma split except an empty one after a final comma); the unchanged token then ends the loop |
| RuleEngine.AddedAllSegments | main/Rules.java:202-215 | on a property with no two equal segments in a row, every segment is added except an empty one after a final comma, and nothing else; a property that is empty or starts with a comma adds only the empty string |
| RuleEngine.AddedListExamples | main/Rules.java:206-214 | "a,b" and "a,b," both add exactly "a" and "b" |
| RuleEngine.AddedStopExamples | main/Rules.java:206-214 | "a,a,b" stops at the repeated "a" and adds only "a"; "" and ",a" add only "" |
| RuleEngine.RuleOf | main/Rules.java:133-194 | an attribute names a rule exactly when it is one of the recognised rule names |
| RuleEngine.ApplyRuleName | main/Rules.java:133-191 | a rule only grows the sets; `websiteURL` writes `saveType` and nothing else; `homepageURL` sets the homepage and marks a local file exactly when it lacks "http"; the index list is unchanged |
| RuleEngine.ApplyRule | main/Rules.java:132-195 | unknown attributes change nothing; the `websiteURL` and `homepageURL` cases as above |
| RuleEngine.LoadFields | main/Rules.java:80-112 | loading the settings appends exactly the declared index fields, in file order, and never sets `websiteURL` |
| RuleEngine.WebsiteURLNeverSet | main/Rules.java:150-151 | after `init` from any settings file, `websiteURL` is still unset |
| RuleEngine.Rules.constructor | main/Rules.java:21-49 | the settings start at their defaults |
| RuleEngine.Rules.ParseIndex | main/Rules.java:123-125 | appends one field to the index list and changes nothing else |
| RuleEngine.Rules.ParseRuleName | main/Rules.java:132-195 | the settings become `ApplyRule` of the old settings |
| RuleEngine.Rules.Init | main/Rules.java:62-116 | the sets and index list are cleared, then every non-empty line is applied in order |
| RuleEngine.SetNotContainsIsNegation | main/Rules.java:276-302 | the two set scans are exact negations of each other |
| RuleEngine.ScanSetContainsAbsURL | main/Rules.java:276-285 | the early-return loop is true exactly when some entry occurs in the URL |
| RuleEngine.ScanSetNotContainsAbsURL | main/Rules.java:293-302 | the early-return loop is true exactly when no entry occurs in the URL |
| RuleEngine.ScanDocHasSelector | main/Rules.java:435-444 | true exactly when every selector matches something in the page |
| RuleEngine.ScanDocNotHasSelector | main/Rules.java:452-461 | true exactly when no selector matches anything in the page |
| RuleEngine.ShouldDownloadMatchesLowerEntry | main/Rules.java:222-225 | a file type is downloaded exactly when the download list holds, as an all-lower-case entry, the type up to case; an entry with an upper-case letter never matches |
| RuleEngine.ShouldDownloadIgnoresCase | main/Rules.java:222-225 | the download test gives the same answer for file types equal up to case |
| RuleEngine.ShouldFollow | main/Rules.java:245-254 | an excluded path is never followed; without external links, a followed URL contains the homepage; a refusal has one of those two reasons |
| RuleEngine.ShouldFollowType | main/Rules.java:230-240 | following a typed link is `shouldFollow(url)` and the lower-cased type being a follow type |
| RuleEngine.ShouldIndex | main/Rules.java:262-268 | index exactly when every required selector matches, no excluded selector matches, and no excluded path occurs in the URL |
| RuleEngine.ShouldIndexIgnoresPathsToIndex | main/Rules.java:262-268 | the `pathsToIndex` setting has no influence on indexing |
| RuleEngine.WithoutHomeURL | main/Rules.java:468-475 | a URL without the homepage is returned whole; otherwise the result is what follows the homepage's first occurrence |
| Records.Keys | main/Rules.java:321-357 | the record's field names, in insertion order |
| Records.Position | main/Rules.java:356 | the first position of a field name |
| Records.Append | main/Rules.java:356 | `Document.append` as an insertion-ordered map: a new key goes at the end, an existing key is overwritten in place, and other entries are untouched |
| Records.AppendDistinct | main/Rules.java:356 | appending keeps the field names distinct and the key then holds the new value |
| Records.PageDefaults | main/Rules.java:313-318 | `$fileType` is what follows the last '.', `$fileName` what follows the last '/', `$filePath` is subdir plus the saved location, `$size` the formatted length |
| Records.ResolveOutcome | main/Rules.java:326-353 | `$` values give the named default (an unknown one is kept as written); quoted values lose their quotes, and a one-character one fails with StringIndexOutOfBounds; anything else is the text found by the extraction expression |
| Records.ResolveValue | main/Rules.java:326-353 | the branch chain of one loop iteration computes `Resolve` |
| Records.BuildKeepsKeys | main/Rules.java:321-357 | a successful build keeps the starting record's keys in front, in order, has at most one more entry per field, and holds every field's name as a key |
| Records.BuildOneEntryPerField | main/Rules.java:321-357 | with distinct field names, a successful build appends one entry per field, in order, named by the field and holding its resolved value |
| Records.RecordHasOneEntryPerField | main/Rules.java:312-360 | the same, for the record buildBSON starts from empty |
| Records.BuildFailsIffSomeFieldFails | main/Rules.java:322-357 | building fails exactly when some field's value fails to resolve |
| Records.BuildDistinctKeys | main/Rules.java:321-357 | a built record never holds a field name twice |
| Records.BuildBSON | main/Rules.java:312-360 | the loop builds the record for the page's defaults and index fields |
| Html.AllElements | main/Rules.java:370 | `getAllElements` lists the element itself first |
| Html.FirstLeaf | main/Rules.java:384-389 | following first children ends at an element with no children |
| Html.FirstLeafInDocumentOrder | main/Rules.java:384-389 | that leaf is the element at position `LeafDepth` of `getAllElements`, and every element before it has children |
| Extraction.Eval | main/Rules.java:379-427 | the only exception the recursive evaluation raises is IndexOutOfBounds; an empty element set never yields an element; an exhausted expression over a non-empty set yields the first leaf of its first element |
| Extraction.EvalTextOutcome | main/Rules.java:368-371 | a field's code yields text exactly when the evaluation finds an element, and then it is that element's own text; it fails only with NullPointerException or IndexOutOfBounds; an empty code yields the own text of the page's first leaf |
| Extraction.DescendFirstChildren | main/Rules.java:384-390 | the descent loop ends at the first leaf |
| Extraction.ParseCodeIn | main/Rules.java:379-427 | the recursive method computes `Eval` of the expression over the element list |
| Extraction.ParseCode | main/Rules.java:368-371 | the extracted text is the own text of the element found; no element raises NullPointerException |
| Extraction.EmptyExpressionDescends | main/Rules.java:383-390 | an exhausted expression returns the first leaf of the first element |
| Extraction.SingleLeafEndsEvaluation | main/Rules.java:383-390 | a single childless element is the result, whatever the expression |
| Extraction.EmptySet | main/Rules.java:383-395 | an empty selection fails with IndexOutOfBounds on an empty expression, and finds no element otherwise |
| Extraction.ChildCommand | main/Rules.java:403-414 | `child(i)+rest` continues with the children of element `i` |
| Extraction.ChildStep | main/Rules.java:403-414 | the same, stated for any expression whose first command is `child` |
| Extraction.UnknownCommand | main/Rules.java:415-418 | a command other than `child` returns the first element |
| Extraction.SelectorSegment | main/Rules.java:421-424 | a segment without parentheses is a CSS selector applied to the current elements |
| Extraction.ChildThenSelector | main/Rules.java:379-427 | `child(0)+p` on `div > div > p` finds the `p` |
| Crawler.CleanAbsoluteUrl | main/WebDownloader.java:212-225 | the URL cut just before its first '?' or '#': a prefix holding neither, the whole URL when neither occurs |
| Crawler.CleanIdempotent | main/WebDownloader.java:212-225 | cleaning twice is cleaning once |
| Crawler.WithoutTrailingSlash | main/WebDownloader.java:59-61 | one trailing '/' is removed, and only if present |
| Crawler.HomeDirectory | main/WebDownloader.java:75-76 | the home URL cut after its last '/': a prefix ending in '/', with no '/' after it |
| Crawler.OfferSnoc | main/WebDownloader.java:196 | offering one more URL appends it exactly when the queue has room |
| Crawler.OfferTruncates | main/WebDownloader.java:196 | offering URLs keeps them in order and drops exactly those that arrive once the queue is full |
| Crawler.OfferOnlyAdds | main/WebDownloader.java:196 | offering keeps the old contents as a prefix and adds only offered URLs |
| Crawler.OfferTail | main/WebDownloader.java:196 | the added part is a prefix of the offered URLs |
| Crawler.WebsitePath | main/WebDownloader.java:446-454 | for a URL with "http": NullPointerException while `websiteURL` is unset; otherwise what follows the website URL, "index.html" for the website URL itself, and the whole URL when it does not occur |
| Crawler.PathWithoutHome | main/WebDownloader.java:444-466 | `withoutHomeURL` raises exactly for a URL with "http" while `websiteURL` is unset (NullPointerException) and for a non-empty file path under an empty `homeURL` (StringIndexOutOfBounds) |
| Crawler.HomePath | main/WebDownloader.java:456-464 | for a file path: the whole path when `homeURL` does not occur, and "index.html" when they are equal. An empty `homeURL` fails with StringIndexOutOfBounds. Otherwise the result is the last character of `homeURL` followed by what comes after it |
| Crawler.HomePathInside | main/WebDownloader.java:458-463 | a file path that strictly contains a non-empty `homeURL` maps to the last character of `homeURL` followed by the rest of the path, so the path is what precedes `homeURL`, `homeURL`, and the result without its first character |
| Crawler.GetFileLocation | main/WebDownloader.java:434-437 | every location lies under the working directory and subdir; a URL with "http" raises NullPointerException while `websiteURL` is unset, which is the case for every local crawl of an http link; an empty `homeURL` makes a non-empty file path raise StringIndexOutOfBounds; `homeURL` itself maps to its "index.html", and a path outside `homeURL` is kept whole |
| Crawler.SavePath | main/WebDownloader.java:367-375 | the file written for a URL: working directory and path, with "index.html" for an empty path, and for the one-character path that ends a directory |
| Crawler.SaveByteBuffer | main/WebDownloader.java:363-388 | local crawls write nothing and return the length; otherwise the path error, or the length when the write succeeds and -1 when it does not |
| Crawler.SaveFile | main/WebDownloader.java:316-341 | local crawls return 0; a path error escapes; a read that raises IOException returns 0; a successful read of n bytes is written to the save path and returns n, or -1 when the write fails, and a save-path error escapes |
| Crawler.Sources | main/WebDownloader.java:233-239 | the absolute URLs of the selected elements, in order |
| Crawler.LinkPlanStep | main/WebDownloader.java:186-203 | one loop iteration: enqueue a wanted link, then stop if `withoutHomeURL` raises |
| Crawler.LinkPlanExtends | main/WebDownloader.java:186-203 | the loop only appends to what it has enqueued |
| Crawler.LinkPlanWanted | main/WebDownloader.java:186-197 | every URL the loop enqueues comes from one of the page's links and passes the follow test |
| Crawler.LinkPlanComplete | main/WebDownloader.java:186-197 | when no exception ends the loop, every wanted link of the page is enqueued |
| Crawler.HttpLinkEndsFollowLinks | main/WebDownloader.java:203 | with `websiteURL` unset, a first link containing "http" ends `followLinks` with NullPointerException |
| Crawler.OfferWanted | main/WebDownloader.java:196 | offering only wanted URLs adds only wanted URLs |
| Crawler.FollowLinksWanted | main/WebDownloader.java:181-205 | `followLinks` adds to the queue only URLs that pass the follow test and were not yet followed |
| Crawler.ExistingURLCases | main/WebDownloader.java:414-419 | a saved file's URL is `homeURL` plus what follows subdir in its path. Where subdir does not occur, the cut starts at `subdir.length() - 1`, and fails when that is past the end |
| Crawler.ExistingURLsAll | main/WebDownloader.java:409-419 | the directory walk succeeds exactly when every file's URL can be built, and then yields them in order |
| Crawler.RestFails | main/WebDownloader.java:409-419 | a failure stops the walk with that failure |
| Crawler.ExistingURLsSnoc | main/WebDownloader.java:409-419 | one more file with a URL extends the walk by that URL |
| Crawler.ExistingURLsStops | main/WebDownloader.java:409-419 | a file whose URL fails ends the walk with that failure |
| Crawler.ReconciledSnoc | main/WebDownloader.java:421-427 | one more URL is entered as a file, as a page, or not at all |
| Crawler.ReconciledStep | main/WebDownloader.java:421-427 | one more URL keeps the sets equal to their start plus what reconciliation enters |
| Crawler.ReconciledMembers | main/WebDownloader.java:421-427 | a URL is entered as downloaded exactly when its type is a download type, and as followed exactly when it is not but would be followed |
| Crawler.ReconciledOnce | main/WebDownloader.java:423-427 | no URL is entered both as a file and as a page |
| Crawler.ReconcileExample | main/WebDownloader.java:403-432 | with `a.html` and `b.jpg` saved, "jpg" a download type and "html" neither kind: only b.jpg's URL is entered, as downloaded |
| Crawler.WebDownloader.constructor | main/WebDownloader.java:23-31 | empty sets, logs and records over the given rules |
| Crawler.WebDownloader.RecordFetch | main/WebDownloader.java:271 | a page under `homeURL` not yet followed is marked followed and logged once |
| Crawler.WebDownloader.RecordSave | main/WebDownloader.java:255 | a file not yet downloaded is marked downloaded and logged once |
| Crawler.WebDownloader.DownloadWebpage | main/WebDownloader.java:266-309 | a new URL under `homeURL` is fetched and marked followed. Any other URL returns null and changes nothing. No page is fetched twice |
| Crawler.WebDownloader.DownloadFile | main/WebDownloader.java:247-258 | a file that may be followed, is of a download type and is new is saved and marked; anything else returns 0 and changes nothing; no file is saved twice |
| Crawler.WebDownloader.OfferLink | main/WebDownloader.java:195-197 | one link: the queue receives the URL exactly when it is wanted (followable, not followed, non-empty), up to its capacity |
| Crawler.WebDownloader.FollowLinks | main/WebDownloader.java:181-205 | the queue receives exactly the planned URLs, up to its capacity. The loop raises exactly when `withoutHomeURL` does |
| Crawler.WebDownloader.DownloadFiles | main/WebDownloader.java:233-239 | only allowed sources of the selected elements are downloaded, and when no exception escapes, all of them are |
| Crawler.WebDownloader.MarkExisting | main/WebDownloader.java:421-427 | a URL of a download type is marked downloaded, else one that would be followed is marked followed |
| Crawler.WebDownloader.ReconcileFile | main/WebDownloader.java:410-427 | one file of the walk: its URL is built and entered, or the walk fails |
| Crawler.WebDownloader.ReconcileFiles | main/WebDownloader.java:403-432 | the walk fails exactly when some file's URL fails. On success, the sets grow by exactly what `ExistingURLs` and the reconciliation sets describe |
| Crawler.WebDownloader.RedownloadExistingFiles | main/WebDownloader.java:393-432 | the same, over the crawler's own settings |
| Crawler.WebDownloader.IndexPage | main/WebDownloader.java:136-138 | the page's record is inserted exactly when it can be built, and otherwise its failure escapes |
| Crawler.WebDownloader.FollowPageLinks | main/WebDownloader.java:124 | the queue receives exactly the planned links of the page's `a` elements, up to its capacity, and it raises exactly when `withoutHomeURL` does; only wanted, not yet followed URLs join the queue |
| Crawler.WebDownloader.DownloadAssets | main/WebDownloader.java:126-133 | every new download is an allowed image, style sheet or script of the page, and with no exception, every such file is downloaded |
| Crawler.WebDownloader.FinishPage | main/WebDownloader.java:126-138 | the assets as in `DownloadAssets`; at most one record is inserted, only for a page that should be indexed, and it is that page's record; with no exception an indexed page gets its record |
| Crawler.WebDownloader.ProcessPage | main/WebDownloader.java:121-138 | a failing save escapes and changes nothing; otherwise the queue receives exactly the page's planned links, every allowed asset is downloaded when no exception escapes, and at most one record is inserted: the page's own, when the rules index it, and always when they do and nothing raised |
| Crawler.WebDownloader.DownloadAndProcess | main/WebDownloader.java:113-138 | the page is fetched once if it was not followed, else nothing changes; only wanted URLs join the queue; a record inserted is the fetched page's own |
| Crawler.WebDownloader.DownloadWebpages | main/WebDownloader.java:97-139 | an already followed URL changes nothing. Otherwise, at most the page's target (its file location for a local crawl) is fetched once. Only wanted URLs join the queue. At most one record is inserted, and it is the fetched page's record when it should be indexed |
| Crawler.WebDownloader.IndexContent | main/WebDownloader.java:168-175 | without a content element a NullPointerException escapes; a content source the rules do not index changes nothing; one they index is downloaded when allowed and, with no exception, gets its record; at most one record is inserted, and it is the content's |
| Crawler.WebDownloader.DownloadContentOnly | main/WebDownloader.java:145-176 | as `DownloadWebpages`, with the record built for the page's content source |
| Crawler.WebDownloader.CrawlStep | main/WebDownloader.java:78-79 | one round: the head of the queue is taken and logged as a round in the given mode; only pages not followed before are fetched, and the sets and records only grow |
| Crawler.WebDownloader.Crawl | main/WebDownloader.java:78-86 | the queue loop (within the fuel bound) ends with an empty queue unless a call raised. Every round runs in the given mode, and the first takes the URL at the head of the queue. It fetches only pages not followed before and only grows the sets and the record list |
| Crawler.WebDownloader.Reset | main/WebDownloader.java:48-61 | fresh sets and a fresh queue of 1024 slots; `homeURL` from the rules; `workingDir` is the working directory and subdir without a trailing '/' |
| Crawler.WebDownloader.StartCrawl | main/WebDownloader.java:71-87 | the loop runs with the home URL as its first round (when the fuel allows one), every round in the given mode, and an empty queue at the end unless a call raised or the fuel ran out; a full-site crawl cuts `homeURL` to its directory; no page followed before is fetched |
| Crawler.WebDownloader.CrawlInMode | main/WebDownloader.java:71-87 | "fullSite" and "content" (any case) start the crawl from the home URL in that mode, as in `StartCrawl`; any other save type runs no round and fetches and inserts nothing |
| Crawler.WebDownloader.ReconcileSaved | main/WebDownloader.java:66-68 | the saved files are reconciled exactly when neither redownloading nor crawling local files; that fails exactly when the walk fails, and otherwise every reconciled page is in `linksFollowed` |
| Crawler.WebDownloader.ReconcileAndCrawl | main/WebDownloader.java:66-87 | when existing files are reconciled, a failing walk ends the run before any round. Otherwise the crawl runs from the homepage in the configured mode, as in `CrawlInMode`, and no page recorded as followed by reconciliation is fetched |
| Crawler.WebDownloader.Run | main/WebDownloader.java:48-91 | the whole run: a fresh queue of 1024 slots, trailing slash removed, reconciliation, then the crawl from the homepage in the configured mode (first round the homepage, every round in that mode, an empty queue at the end unless a call raised or the fuel ran out). No page is fetched twice. Reconciled pages are never fetched. Other save types run no round |

## Left out

- The settings file reader (`Scanner` over `settings.txt`) and `ByteBuffer`
  are not part of this model. Their sources are not available. `init`
  receives the settings as a list of (group, attribute, value) lines.
  `getToken` is assumed to put the text before the first delimiter into
  the token and move the buffer past it, or, with no delimiter left, the
  whole remaining text and an empty buffer; on an exhausted buffer it leaves
  the token as it was, which is what the "cycled without changing" test of
  `addProperties` (main/Rules.java:212) relies on. `Strings.GetToken` states
  this reading and `Strings.NextToken` its case of a fresh, empty token,
  which is the only case `parseCode` meets.
- `RuleEngine.AddProperties`: under that reading a trailing comma adds
  nothing, but a leading comma (",a") reads an empty first token equal to
  the initial one, so the loop stops having added only "". The code is
  followed here; a description of the loader as dropping leading empty
  tokens does not match the loop as written.
- `Rules.putURLByName` is not modelled. Only the `withoutHomeURL` call in its
  argument is, because that call can raise.
- `MongoConnect` is a list of inserted records. Connection, `onExit` and
  database errors are not modelled.
- `main` and the settings-file path are not modelled.
- Network and file I/O, and jsoup, are oracles of `Crawler.Web`:
  - `Jsoup.connect`, `Jsoup.parse`, `select`, `absUrl`, `text`;
  - `ByteBuffer.readURL` and `writeToFile`;
  - the caught exceptions of `downloadWebpage` (timeouts, HTTP status,
    unsupported MIME types), which become a fetch returning nothing.
    That includes the `SocketTimeoutException` branch. Its retry guard
    `depth > 5` cannot hold for the first call, which passes depth 0. It
    also includes the `UnknownHostException` branch, which waits for a key
    press and then returns null.
  - `saveFile`'s retry after a `SocketTimeoutException`. Whatever the retry
    writes to disk is not modelled, because the call returns 0 either way.
- The size text of `$size` is an oracle (`formatSize`), since it uses
  floating point.
- The directory walk of `redownloadExistingFiles` is a given list of file
  paths. File-system order is not modelled.
- Logging (`System.out`), the debug branch that prints "hello", and
  `Queue.printRawData` are not modelled. They only write to the console.
- String settings that Java leaves `null` until set start as "", except
  `websiteURL`, which is `None` because no rule ever sets it. The model
  therefore does not capture what an unset setting does in Java: an unset
  `workingDir` or `subdir` puts the text "null" into the working directory,
  an unset `saveType` makes `run` raise a NullPointerException, and an unset
  `homepage` does so in a full-site crawl.
- `Strings.ToLower` maps only the ASCII letters. Java's `toLowerCase` also
  maps other letters and depends on the locale.
- Crawler.WebDownloader.Crawl: the queue loop runs for at most `fuel`
  iterations. Over an unbounded web it need not terminate. The contract
  therefore promises an empty queue only when the loop stops before the
  fuel runs out.
- WorkQueue.Queue.Enqueue: the queue's invariant relates `end` to `start`
  and `size` by `(end + 1) mod L == (start + size) mod L`. With Java's `%`,
  the form `end == (start + size - 1) % L` holds for the initial state when
  L >= 2, but not when L = 1, nor once the queue has wrapped around: with
  L = 2, two enqueues and two dequeues leave start 0, size 0 and end 1,
  while `(0 + 0 - 1) % 2` is -1. A queue of capacity 0 is modelled as the source builds
  it. The growth branch for a full queue under `MAX_SIZE / 2` is modelled as
  written: it allocates an array and copies it onto itself. The queue and
  its contents do not change, and the contract says so.
- Integers are unbounded. The 32-bit `int` of lengths and indices cannot
  overflow for the strings and queues concerned.
