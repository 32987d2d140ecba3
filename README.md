# kikoeru scan-and-ingest, modelled in Dafny

kikoeru is a self-hosted server for a library of voice works. Each work is a folder
whose name carries an RJ code: "RJ" followed by six digits. This project models the
server's scan-and-ingest pipeline and its password gate, and proves properties of that
model.

- **`performScan`.** It creates the Images folder and builds the schema. It then cleans
  out works whose folder has disappeared and collects the RJ folders. It removes
  duplicate ids, processes every remaining folder (metadata, then the cover image) with
  retries, and counts the outcomes. All along it emits 'scan log' events on the socket.
- **`scrapeWorkMetadata`.** It reads a work's title, circle, age rating, tags and voice
  actors. The source is the DLsite page, in one of three locales, with HVDB as the
  fallback for voice actors; or HVDB alone for English. HVDB is read through a
  streaming HTML parser.
- **The authenticator middleware** and the POST handler of the login form.

The database, the file system, the network and the clock are not modelled; they are
inputs. Every attempt at a folder is handed the answers of its collaborators:
- the stored row count;
- whether the cover file exists;
- the DLsite page, the HVDB event stream and the cover response, each of which may
  time out, fail or arrive with a status;
- whether the insert and the save succeed.

A `Fetched` value is one fetch raced against its timeout. A promise chain is a `Result`:
a rejection is `Err(message)`. A `TypeError` thrown by reading a property of
`undefined` is `Err(TypeError)`.

The modules follow the program:

| module | models |
|---|---|
| `Digits` | zero-padded RJ codes, `toString`, `substr(-3,3)` and the DLsite cover folder number |
| `JsText` | `indexOf`, `lastIndexOf`, `substring` and UTF-16 code units |
| `Names` | `hashNameIntoInt` (32-bit wrap-around written out) and `hasLetter` |
| `Works` | the work record the scrapers build |
| `Hvdb` | the HVDB parser callbacks as a class, the event fold they implement, the HVDB scrape |
| `Dlsite` | locale labels, reading the DLsite page, the HVDB voice-actor merge, the DLsite scrape |
| `Metadata` | `scrapeWorkMetadata` |
| `Dedup` | `uniqueArr`, exactly as its nested loop behaves |
| `Folders` | `getMetadata`, `getCoverImage`, `processFolder`, `retryProcessFolder` |
| `Cleanup` | `performCleanup` |
| `Scan` | the folder-name regex, the progress counters (a class), `performScan` |
| `Auth` | `authenticator` and the session flag set by the login POST |

Three behaviours of the code that are easy to misread:

- `uniqueArr` is not a full de-duplication. Its inner loop advances `i` by hand, so a
  later copy of an id can survive next to another id's copies. For ids 1,2,2,1 it keeps
  the entries 2,2,1 and reports only 1 as a duplicate (`Dedup.TwinsCanSurvive`).
- The DLsite cover folder rounds an id UP to the next multiple of 1000; it does not
  round down. Ids ending in 000 are their own folder. So 1999 shares folder 2000 with
  2000, and 1000 is alone (`Digits.CoverBucketExamples`).
- Folder ids are the six-digit strings the regex captures, not numbers. The cleanup's
  ids are numbers from the database.

## Model

| member | source | states |
|---|---|---|
| `Digits.RjCodeDigits` | src/server/filesystem/scanner.js:69 | the RJ code of any digit id is six digits denoting the id modulo 10^6: shorter ids are zero-padded on the left, longer ones keep their last six digits |
| `Digits.RjCode` | src/server/filesystem/scanner.js:69 | the RJ code is always six characters long |
| `Digits.CoverBucket` | src/server/filesystem/scanner.js:98-101 | definition |
| `Digits.RjCodeOfNumber` | src/server/filesystem/scanner.js:233 | for a numeric id below 10^6 the RJ code is its decimal text zero-padded to six; above, its last six digits |
| `Digits.RjCodeByValue` | src/server/filesystem/scanner.js:69 | two digit ids equal modulo 10^6 get the same RJ code, whatever their length |
| `Digits.LastThreeZeros` | src/server/filesystem/scanner.js:98 | the id text ends in "000" exactly when it has three or more digits and denotes a multiple of 1000 |
| `Digits.CoverBucketRoundsUp` | src/server/filesystem/scanner.js:98-101 | for a positive id the DLsite cover folder is the least multiple of 1000 not below the id |
| `Digits.CoverBucketExamples` | src/server/filesystem/scanner.js:98-101 | ids 1000, 1999 and 2000 go to folders 1000, 2000 and 2000 |
| `Names.StepAgrees` | src/server/metadata.js:18 | one `((hash << 5) - hash) + char` step agrees with the step h := 31h + c modulo 2^32 |
| `Names.NameHash` | src/server/metadata.js:12-25 | definition |
| `Names.HashNameIntoInt` | src/server/metadata.js:12-25 | the loop returns the signed 32-bit Horner hash of the UTF-16 code units, divided by 1000, rounded half up and made non-negative; it never exceeds 2147484 |
| `Names.NameHashRange` | src/server/metadata.js:22-23 | every name hashes to at most 2147484 and the empty name to 0 |
| `Names.LetterUnits` | src/server/metadata.js:32-34 | a UTF-16 code unit of a string is an ASCII letter exactly when one of its characters is |
| `Names.HasLetter` | src/server/metadata.js:31-39 | true exactly when some character of the string is in A-Z or a-z |
| `Names.HasLetterExamples` | src/server/metadata.js:31-39 | the empty string and a kana/kanji name have no letter; "Aoi" has one |
| `Hvdb.HvdbParser.constructor` | src/server/metadata.js:60-61 | the parser starts with the work `{id, tags: [], vas: []}` and nothing to write to |
| `Hvdb.HvdbParser.OnOpenTag` | src/server/metadata.js:64-93 | the callback changes the parser state as one open-tag step of the fold does, and throws exactly when that step fails (an anchor without href) |
| `Hvdb.HvdbParser.OnCloseTag` | src/server/metadata.js:94 | the callback performs the close-tag step: text that follows goes nowhere |
| `Hvdb.HvdbParser.OnText` | src/server/metadata.js:95-109 | the callback performs the text step, naming the circle, the last tag, or the last voice actor together with its name hash |
| `Hvdb.OnInput` | src/server/metadata.js:65-73 | definition |
| `Hvdb.OnAnchor` | src/server/metadata.js:75-92 | definition |
| `Hvdb.OnText` | src/server/metadata.js:95-109 | definition |
| `Hvdb.Step` | src/server/metadata.js:64-109 | definition |
| `Hvdb.StepConsistent` | src/server/metadata.js:75-109 | the field `writeTo` names always exists, because the anchor that sets `writeTo` creates it, so a text event never throws |
| `Hvdb.ParseFailsOnlyOnBareAnchor` | src/server/metadata.js:75-76 | a parse fails only with a TypeError, and only when the page has an anchor without href |
| `Hvdb.ParseHvdb` | src/server/metadata.js:111-112 | feeding the events to the callbacks yields the work of the fold over the events, or the error of the first callback that throws |
| `Hvdb.RunAfterError` | src/server/metadata.js:111-112 | once a callback has thrown, further events change nothing |
| `Hvdb.RunConcat` | src/server/metadata.js:111-112 | parsing two stretches of the page one after the other is parsing their concatenation |
| `Hvdb.TextAfterCloseIgnored` | src/server/metadata.js:94-108 | text right after a closing tag leaves the parse result unchanged |
| `Hvdb.TagIds` | src/server/metadata.js:81-85 | every tag anchor contributes a textual id |
| `Hvdb.StepTagIds` | src/server/metadata.js:81-85 | one event adds to the tag ids exactly the id of its tag anchor, if it is one |
| `Hvdb.TagIdsFromHrefs` | src/server/metadata.js:81-85 | the tag ids a parse ends with are those it started with followed by those of the tag anchors, in page order |
| `Hvdb.TagIdsAreSuffixes` | src/server/metadata.js:83 | the id of each tag anchor, taken after the last '/' of its href, contains no '/' |
| `Hvdb.TagIdsHaveNoSlash` | src/server/metadata.js:83 | no tag id of a successful parse contains '/' |
| `Hvdb.StepCircleId` | src/server/metadata.js:75-80 | one event sets the circle id exactly when it is a circle anchor, to the part of its href after the last '/'; any other event keeps it |
| `Hvdb.CircleFromLastAnchor` | src/server/metadata.js:75-80 | the circle id a parse ends with is that of the last circle anchor of the page, or the starting one when there is none |
| `Hvdb.StepNsfw` | src/server/metadata.js:65-72 | one event sets nsfw exactly when it is an SFW input that neither Name nor a non-empty EngName shadows, to `value === 'false'`; any other event keeps it |
| `Hvdb.NsfwFromLastSfwInput` | src/server/metadata.js:65-72 | the nsfw flag a parse ends with is the one the last SFW input sets, or the starting one when there is none |
| `Hvdb.VaIdsAreNameHashes` | src/server/metadata.js:103-105 | every voice actor a successful parse records is either still blank or carries a name and `hashNameIntoInt` of that name as its id |
| `Hvdb.StepTitle` | src/server/metadata.js:65-69 | one event sets the title exactly when it is an input with id Name, or with id EngName and a non-empty value, to that input's value; any other event keeps it |
| `Hvdb.TitleFromLastTitleInput` | src/server/metadata.js:65-69 | the title a parse ends with is the value of the last Name input or non-empty EngName input of the page, whatever lies between them, or the starting title when there is none |
| `Hvdb.TitleFromNameAndEngName` | src/server/metadata.js:65-69 | example: a Name input directly followed by an EngName input gives the EngName value as title, or the Name value when the EngName value is empty |
| `Hvdb.WorkIdKept` | src/server/metadata.js:60 | the parse never changes the work id |
| `Hvdb.HvdbScrape` | src/server/metadata.js:45-123 | definition |
| `Hvdb.HvdbScrapeResolved` | src/server/metadata.js:114-118 | an HVDB scrape resolves only on an ok response whose parse succeeded; the work is the parsed one, for the requested id, with a tag or a voice actor, and hashed voice-actor ids |
| `Dlsite.LocaleLabels` | src/server/metadata.js:136-154 | 'ja-jp' and 'zh-tw' choose their own cookie, and every other language the 'zh-cn' cookie |
| `Dlsite.LocaleFallback` | src/server/metadata.js:149-153 | every tag language other than 'ja-jp' and 'zh-tw' gets exactly the 'zh-cn' cookie and row headers |
| `Dlsite.LocaleHeadersDiffer` | src/server/metadata.js:136-154 | the three locales look rows up under pairwise different headers |
| `Dlsite.RowsWith` | src/server/metadata.js:185-188 | the selected rows are exactly the outline rows whose header equals the label |
| `Dlsite.GenreTags` | src/server/metadata.js:196-206 | every genre link becomes a tag with a numeric id and a name |
| `Dlsite.GenreTagsPerLink` | src/server/metadata.js:196-206 | one tag per genre link, in table order, with the link's number as id and its text as name |
| `Dlsite.HashedCredits` | src/server/metadata.js:209-218 | one voice actor per linked name, in order, with that name and its hash as id |
| `Dlsite.ReadPage` | src/server/metadata.js:171-218 | definition |
| `Dlsite.ReadPageFields` | src/server/metadata.js:174-218 | reading the page fails exactly when it has no maker link; otherwise the work has the requested id, the title link's text, the maker as circle, nsfw 'true' exactly when the age-rating cell reads '18禁' and 'false' otherwise, one tag per genre link carrying its number and text, and one voice actor per voice-actor link, named after it and hashed from its name |
| `Dlsite.UnlabelledRowsIgnored` | src/server/metadata.js:196-199 | rows under other headers than the label contribute nothing |
| `Dlsite.WithoutLatinNames` | src/server/metadata.js:228-232 | keeps exactly the voice actors whose names have no ASCII letter, in order |
| `Dlsite.WithoutLatinNamesConcat` | src/server/metadata.js:228-232 | filtering two stretches of the list is filtering each and concatenating: order and repeated entries are kept |
| `Dlsite.WithoutLatinNamesOne` | src/server/metadata.js:229-231 | a single voice actor is kept exactly when its name has no ASCII letter |
| `Dlsite.MergedVas` | src/server/metadata.js:225-233 | definition |
| `Dlsite.MergeVas` | src/server/metadata.js:225-233 | the `forEach` merge gives the HVDB list itself when it has at most one entry, otherwise the page's list followed by the letter-free HVDB entries |
| `Dlsite.MergeKeepsNativeNames` | src/server/metadata.js:225-233 | with two or more HVDB voice actors the merge keeps exactly the letter-free ones, still hashed from their names, and in their order: any split of the list contributes its parts' letter-free entries one after the other |
| `Dlsite.MergeExamples` | src/server/metadata.js:225-233 | a lone Latin name is kept, a Latin pair is dropped, and from a mixed pair the native name is kept |
| `Dlsite.PageVoicesSkipHvdb` | src/server/metadata.js:244-246 | when the page lists voice actors the result is the page's work and HVDB's answer cannot change it |
| `Dlsite.HvdbFallback` | src/server/metadata.js:220-243 | without voice actors on the page, a failing HVDB scrape rejects with the CV message; otherwise the merged work resolves exactly when it has a tag or a voice actor |
| `Dlsite.DlsiteScrape` | src/server/metadata.js:130-251 | definition |
| `Dlsite.DlsiteScrapeResolved` | src/server/metadata.js:161-247 | a resolved DLsite scrape came from an ok response with a maker link, has the requested id, that circle, the age-rating flag, and a tag or a voice actor |
| `Metadata.EnglishIgnoresDlsite` | src/server/metadata.js:258-264 | for 'en-us' the result is the HVDB scrape and the DLsite page plays no part |
| `Metadata.OtherLanguagesUseDlsite` | src/server/metadata.js:261-263 | every tag language other than 'en-us' gives the DLsite scrape in that language |
| `Metadata.ScrapeWorkMetadata` | src/server/metadata.js:258-264 | definition |
| `Metadata.ResolvedScrape` | src/server/metadata.js:258-264 | whatever the language, a resolved scrape is for the requested id and has a tag or a voice actor |
| `Metadata.TimeoutRejects` | src/server/metadata.js:156-160 | a timed-out fetch of the page the language selects rejects with 'request timeout' |
| `Folders.DlsiteCoverFolder` | src/server/filesystem/scanner.js:96-102 | for a six-digit id both DLsite branches give the URL in the rounded-up folder, and that folder is a multiple of 1000 within 1000 above the id |
| `Folders.CoverUrl` | src/server/filesystem/scanner.js:92-103 | definition |
| `Folders.GetMetadata` | src/server/filesystem/scanner.js:68-83 | definition |
| `Folders.GetCoverImage` | src/server/filesystem/scanner.js:91-123 | definition |
| `Folders.ProcessFolder` | src/server/filesystem/scanner.js:133-183 | definition |
| `Folders.ProcessFolderOutcomes` | src/server/filesystem/scanner.js:133-183 | one attempt rejects exactly when the count query does; failed metadata skips the cover; a stored work is never scraped or inserted and with its cover on disk touches nothing; metadata is 'added' exactly for a new work whose scrape resolved and whose insert succeeded, and 'failed' exactly for a new work where either failed; an added work was inserted for this id with this folder as `dir` and a tag or a voice actor; the cover is 'added' exactly when it was requested and an ok response was saved, and 'failed' exactly when it was requested and that did not happen |
| `Folders.ProcessFolderIdempotent` | src/server/filesystem/scanner.js:145-163 | a stored work with its cover on disk is skipped twice and nothing is fetched, whatever the network would answer |
| `Folders.RetryProcessFolder` | src/server/filesystem/scanner.js:195-206 | at most max(retries, 1) attempts and at least one; every attempt but the last resolved with a 'failed' field; the result is the last attempt's; stopping early means the last was not retryable |
| `Folders.AlwaysFailingRetries` | src/server/filesystem/scanner.js:195-206 | when every attempt fails exactly max(retries, 1) attempts are made and the failure is reported |
| `Folders.SuccessNotRetried` | src/server/filesystem/scanner.js:198-204 | a first attempt without a 'failed' field, or a rejection, is final |
| `Dedup.InnerSkipsTwins` | src/server/filesystem/scanner.js:42-47 | the inner loop moves `i` past exactly entries that have a later twin, recording each one's id |
| `Dedup.KeptShape` | src/server/filesystem/scanner.js:41-49 | the positions pushed to `hash` increase, and every position not pushed has a later twin |
| `Dedup.DupsShape` | src/server/filesystem/scanner.js:41-49 | every entry is either pushed or recorded as a duplicate, and each recorded id is that of an entry with a later twin |
| `Dedup.UniquedAtKept` | src/server/filesystem/scanner.js:41-49 | the unique list is the input at the pushed positions |
| `Dedup.OuterStep` | src/server/filesystem/scanner.js:41-49 | one outer pass pushes the entry where the inner loop stops and records the ids it skipped |
| `Dedup.Distinct` | src/server/filesystem/scanner.js:51-53 | the set-to-array step keeps every id once and only ids from its input |
| `Dedup.ArrayFromSet` | src/server/filesystem/scanner.js:51-53 | the loop returns what the `Set` round trip gives: every skipped id once, and only those |
| `Dedup.UniqueArr` | src/server/filesystem/scanner.js:37-59 | the nested loop returns the entries its own pass keeps and the distinct ids it skipped |
| `Dedup.DuplicateCount` | src/server/filesystem/scanner.js:41-49 | the input's length minus the unique list's length is the number of skipped entries |
| `Dedup.EveryIdSurvives` | src/server/filesystem/scanner.js:41-49 | every id of the input has at least one entry in the unique list |
| `Dedup.SurvivorsInOrder` | src/server/filesystem/scanner.js:41-49 | the unique list is a subsequence of the input, order kept, and the last entry always survives |
| `Dedup.DuplicatesAreRepeated` | src/server/filesystem/scanner.js:41-53 | every reported duplicate id occurs at least twice in the input, and none is reported twice |
| `Dedup.DistinctUnchanged` | src/server/filesystem/scanner.js:41-53 | an input with pairwise distinct ids comes back unchanged, with no duplicates |
| `Dedup.KeptAll` | src/server/filesystem/scanner.js:41-49 | without repeated ids every position is pushed, in order |
| `Dedup.TwinsCanSurvive` | src/server/filesystem/scanner.js:41-49 | for ids 1,2,2,1 both 2s survive and only 1 is reported |
| `Cleanup.PerformCleanup` | src/server/filesystem/scanner.js:224-248 | definition |
| `Cleanup.CleanupRemovesMissing` | src/server/filesystem/scanner.js:224-248 | exactly the works whose folder is missing are removed |
| `Cleanup.CleanupDeletesCovers` | src/server/filesystem/scanner.js:224-248 | exactly the missing works whose removal succeeded have their cover deleted, under their six-digit RJ code |
| `Cleanup.CleanupRejects` | src/server/filesystem/scanner.js:224-248 | the cleanup rejects exactly when the removal of some missing work failed |
| `Cleanup.NothingMissing` | src/server/filesystem/scanner.js:230-241 | when every folder exists nothing is removed or deleted and the cleanup resolves |
| `Cleanup.CleanupExample` | src/server/filesystem/scanner.js:230-241 | of works 1 in a missing folder and 2 in a present one, work 1 is removed and cover 000001 deleted |
| `Scan.MatchRj` | src/server/filesystem/scanner.js:279 | the capture is the six digits of the leftmost "RJ" plus six digits, and there is none when the name has no such match |
| `Scan.CollectFoldersShape` | src/server/filesystem/scanner.js:276-288 | one entry per folder with its captured id, up to the first folder without an RJ code, where the loop is abandoned |
| `Scan.CollectRjFolders` | src/server/filesystem/scanner.js:276-288 | the `for await` loop collects exactly those entries |
| `Scan.Classify` | src/server/filesystem/scanner.js:328-340 | definition |
| `Scan.TallyTotal` | src/server/filesystem/scanner.js:322-340 | every result is counted exactly once |
| `Scan.TallyPermutation` | src/server/filesystem/scanner.js:319-347 | the counts do not depend on the order in which the promises settle |
| `Scan.ResolvedPermutation` | src/server/filesystem/scanner.js:319-325 | the same completions in another order resolve to the same results, in another order |
| `Scan.FinalCountsPermutation` | src/server/filesystem/scanner.js:319-347 | the counts in the finished message do not depend on the order in which the folders settle |
| `Scan.ScanProgress.constructor` | src/server/filesystem/scanner.js:297-312 | the counters start with the duplicates as skipped and nothing processed |
| `Scan.ScanProgress.Record` | src/server/filesystem/scanner.js:322-346 | one callback bumps the counter its result falls in and the processed count, emits the failed or added message with the new count, and then the finished message once every folder has reported |
| `Scan.Outcomes` | src/server/filesystem/scanner.js:319-323 | one promise is launched per unique folder |
| `Scan.ResolvedResults` | src/server/filesystem/scanner.js:323 | only resolved promises reach the callback, and all do exactly when none rejected |
| `Scan.FinalCountsStep` | src/server/filesystem/scanner.js:322-341 | one more resolved promise bumps exactly its counter; a rejected one changes nothing |
| `Scan.FinishedWhenAllResolved` | src/server/filesystem/scanner.js:341-345 | the finished condition holds exactly at the last promise when every promise resolved |
| `Scan.FinalCountsCoverAllFolders` | src/server/filesystem/scanner.js:306-345 | when every promise resolves the final counts add up to the number of collected folders, duplicates included |
| `Scan.ReportCompletions` | src/server/filesystem/scanner.js:319-347 | the callbacks emit the finished message at most once, last, exactly when every promise resolved, carrying the final counts |
| `Scan.DuplicateRjCodes` | src/server/filesystem/scanner.js:307-310 | one "RJ" code per reported duplicate id |
| `Scan.ScanCollected` | src/server/filesystem/scanner.js:297-347 | the log starts with the start message, the duplicates message follows when there are duplicates, and the callbacks report as above |
| `Scan.ScanFolders` | src/server/filesystem/scanner.js:271-296 | an empty collection logs start and a zero summary; otherwise the log is what the collected folders report |
| `Scan.PerformScan` | src/server/filesystem/scanner.js:255-358 | an Images folder error other than EEXIST logs one failure and does nothing else; otherwise cleanup runs when the schema was built and the scan runs either way |
| `Auth.Authenticator` | src/server/auth.js:20-31 | a request either passes or is sent to '/auth/'; a redirect means no session and a password; a public path always passes |
| `Auth.StaticAssetsPass` | src/server/auth.js:23 | every path starting with '/static/' passes |
| `Auth.RedirectTargetPasses` | src/server/auth.js:20-31 | the redirect target passes itself, so the redirect cannot loop |
| `Auth.OpenGate` | src/server/auth.js:24-25 | an authenticated session, or a missing or empty password, lets every path through |
| `Auth.RedirectedExactly` | src/server/auth.js:20-31 | a request is redirected exactly when its path is not public, its session is not authenticated and a password is set |
| `Auth.LoginPathNeedsSlash` | src/server/auth.js:21-23 | '/auth' and '/static' without the trailing slash are not public |
| `Auth.Session.constructor` | src/server/auth.js:24 | a new session is not authenticated |
| `Auth.Session.PostPassword` | src/server/auth.js:12-18 | the session becomes authenticated exactly when the submitted password equals the configured one (both absent counts as equal); a wrong one leaves it as it was; the browser always goes to '/' |
| `Auth.Session.Decide` | src/server/auth.js:20-31 | an authenticated session passes on every path |
| `Auth.LoginThenBrowse` | src/server/auth.js:12-31 | after the right password every path passes; after a wrong one the decision is unchanged |

## Left out

- The network, the timers, the database, the file system and the socket are inputs, not code. This covers `fetch`, `setTimeout`, knex, `fs.exists`/`existsSync`/`mkdir`, `saveCoverImageToDisk`, `deleteCoverImageFromDisk` and `io.emit`. Console logging is not modelled.
- The cheerio selectors are taken as given. The DLsite page is modelled as what they select: the title link text, the maker link, and the outline rows with their header, cell text and links. The `parseInt` of the circle and tag ids from their hrefs is taken as given too.
- The htmlparser2 tokenizer and its entity decoding are left out: the HVDB page is the stream of events the parser reports.
- `limit-promise` concurrency: all folders are launched at once and their callbacks run in launch order. `Scan.FinalCountsPermutation` shows that the counts do not depend on that order. The interleaving of the socket messages across folders is not modelled.
- `Scan.ReportCompletions`: the counters are updated by callbacks that JavaScript's single thread serialises. No lost update is modelled, because none can happen.
- `Names.HashNameIntoInt`: JavaScript keeps `hash` as a double between iterations. The model uses exact integers, which agree while |hash| < 2^53. The shift goes through ToInt32, so each step adds less than 2^31 + 2^16 to |hash|. The bound therefore holds for names shorter than about 4.19 million code units.
- The failure of the `select id, dir` query in `performCleanup` is left out, and so is a cover deletion failure, which is only logged.
- `retryProcessFolder` is modelled on attempts indexed by number. Each attempt sees its own answers from the collaborators.
- `Scan.PerformScan`: its result promise, and the return strings it uses for the error and empty cases, are not modelled.
- The GET handler of the login page is not modelled: it only serves `auth.html`.
