/**
 * Processing one work folder: `getMetadata`, `getCoverImage`, `processFolder`
 * and `retryProcessFolder` of the scanner. The database, the file system and
 * the network are oracles: each attempt is handed what they answer.
 */
module Folders {

  import opened Wrappers
  import opened Digits
  import opened Works
  import opened Hvdb
  import opened Dlsite
  import opened Metadata

  /** The outcome strings 'added', 'skipped' and 'failed'. */
  datatype Status = Added | Skipped | Failed

  /** `processResult`. */
  datatype ProcessResult = ProcessResult(metadata: Status, coverImage: Status)

  /** How a promise settled: resolved with a value, or rejected. */
  datatype Settled = Resolved(result: ProcessResult) | Rejected

  /** What the collaborators answer during one attempt at a folder. */
  datatype Attempt = Attempt(
    storedCount: Option<nat>,          // `count(*)` of `t_work` rows with this id; None: the query rejects
    coverOnDisk: bool,                 // `Images/RJxxxxxx.jpg` exists
    dlsite: Fetched<DlsitePage>,       // the DLsite work page
    hvdb: Fetched<seq<HtmlEvent>>,     // the HVDB work page
    insertOk: bool,                    // `insertWorkMetadata` resolves
    cover: Fetched<()>,                // the cover image request
    saveOk: bool)                      // `saveCoverImageToDisk` resolves

  /** Where the cover is downloaded from; DLsite groups covers in folders of a thousand ids. */
  function CoverUrl(idText: string, coverSource: string): string
    requires AllDigits(idText)
  {
    var rjcode := RjCode(idText);
    if coverSource == "HVDB" then "https://hvdb.me/WorkImages/RJ" + rjcode + ".jpg"
    else
      var folder := if LastThree(idText) == "000" then rjcode else RjCode(Decimal(CoverBucket(idText)));
      "https://img.dlsite.jp/modpub/images2/work/doujin/RJ" + folder + "/RJ" + rjcode + "_img_main.jpg"
  }

  /**
   * For a six-digit id the DLsite folder is the id rounded up to a multiple of
   * 1000 (kept when it already is one), zero-padded to six digits; both
   * branches of the source agree on that.
   */
  lemma DlsiteCoverFolder(idText: string, coverSource: string)
    requires AllDigits(idText) && |idText| == 6 && coverSource != "HVDB"
    ensures CoverUrl(idText, coverSource) ==
      "https://img.dlsite.jp/modpub/images2/work/doujin/RJ" + RjCode(Decimal(CoverBucket(idText))) + "/RJ" + idText + "_img_main.jpg"
    ensures Value(idText) > 0 ==>
      && CoverBucket(idText) % 1000 == 0
      && Value(idText) <= CoverBucket(idText) < Value(idText) + 1000
  {
    RjCodeOfSixDigits(idText);
    if LastThree(idText) == "000" {
      DecimalValue(Value(idText));
      RjCodeByValue(idText, Decimal(Value(idText)));
    }
    if Value(idText) > 0 {
      CoverBucketRoundsUp(idText);
    }
  }

  /** `getMetadata`: the scrape, then the insert of the work with `dir` set; any rejection is 'failed'. */
  function GetMetadata(idText: string, folder: string, tagLanguage: string, a: Attempt): (Status, Option<WorkRecord>)
  {
    match ScrapeWorkMetadata(idText, tagLanguage, a.dlsite, a.hvdb)
    case Err(_) => (Failed, None)
    case Ok(work) => (if a.insertOk then Added else Failed, Some(WorkRecord(work, folder)))
  }

  /** `getCoverImage`: 'added' exactly when an ok response arrived in time and was saved. */
  function GetCoverImage(a: Attempt): Status
  {
    if a.cover.Response? && a.cover.ok && a.saveOk then Added else Failed
  }

  /** One attempt: what it settles to, the row it asks the store to insert, the cover URL it requests. */
  datatype FolderRun = FolderRun(settled: Settled, insert: Option<WorkRecord>, coverRequest: Option<string>)

  /**
   * `processFolder`: a work already in the database is only checked for a
   * missing cover; a new one is scraped and inserted, and its cover fetched
   * unless the metadata failed. Only a failing count query rejects.
   */
  function ProcessFolder(idText: string, folder: string, tagLanguage: string, coverSource: string, a: Attempt): FolderRun
    requires AllDigits(idText)
  {
    var url := CoverUrl(idText, coverSource);
    match a.storedCount
    case None => FolderRun(Rejected, None, None)
    case Some(count) =>
      if count != 0 then
        if a.coverOnDisk then FolderRun(Resolved(ProcessResult(Skipped, Skipped)), None, None)
        else FolderRun(Resolved(ProcessResult(Skipped, GetCoverImage(a))), None, Some(url))
      else
        var (metadata, insert) := GetMetadata(idText, folder, tagLanguage, a);
        if metadata == Failed then FolderRun(Resolved(ProcessResult(Failed, Skipped)), insert, None)
        else FolderRun(Resolved(ProcessResult(metadata, GetCoverImage(a))), insert, Some(url))
  }

  /**
   * What one attempt promises: the cover is never fetched after the metadata
   * failed; a work in the database is never scraped or inserted again, and with
   * its cover on disk the attempt touches nothing; an added work was inserted
   * as the scraped work for this id with this folder as `dir`. The metadata is
   * 'added' exactly when a new work is scraped and inserted, 'failed' in every
   * other case of a new work; the cover is 'added' exactly when it was requested
   * and an ok response was saved, 'failed' when it was requested otherwise.
   */
  lemma ProcessFolderOutcomes(idText: string, folder: string, tagLanguage: string, coverSource: string, a: Attempt)
    requires AllDigits(idText)
    ensures var run := ProcessFolder(idText, folder, tagLanguage, coverSource, a);
      && (run.settled.Rejected? <==> a.storedCount.None?)
      && (run.settled.Resolved? && run.settled.result.metadata == Failed ==>
            run.settled.result.coverImage == Skipped && run.coverRequest.None?)
      && (a.storedCount.Some? && a.storedCount.value != 0 ==>
            run.insert.None? && run.settled.result.metadata == Skipped
            && (a.coverOnDisk <==> run.coverRequest.None?))
      && (a.storedCount.Some? && a.storedCount.value != 0 && a.coverOnDisk ==>
            run.settled == Resolved(ProcessResult(Skipped, Skipped)))
      && (run.settled.Resolved? && run.settled.result.metadata == Added ==>
            run.insert.Some? && run.insert.value.dir == folder && run.insert.value.work.id == idText
            && (run.insert.value.work.tags != [] || run.insert.value.work.vas != [])
            && run.coverRequest == Some(CoverUrl(idText, coverSource)))
      && (run.settled.Resolved? ==>
            && (run.settled.result.metadata == Added <==>
                  a.storedCount.value == 0 && ScrapeWorkMetadata(idText, tagLanguage, a.dlsite, a.hvdb).Ok? && a.insertOk)
            && (run.settled.result.metadata == Failed <==>
                  a.storedCount.value == 0 && !(ScrapeWorkMetadata(idText, tagLanguage, a.dlsite, a.hvdb).Ok? && a.insertOk))
            && (run.settled.result.coverImage == Added <==>
                  run.coverRequest.Some? && a.cover.Response? && a.cover.ok && a.saveOk)
            && (run.settled.result.coverImage == Failed <==>
                  run.coverRequest.Some? && !(a.cover.Response? && a.cover.ok && a.saveOk)))
  {
    match ScrapeWorkMetadata(idText, tagLanguage, a.dlsite, a.hvdb)
    case Err(_) =>
    case Ok(_) => ResolvedScrape(idText, tagLanguage, a.dlsite, a.hvdb);
  }

  /** A folder whose work is stored and whose cover is on disk is left alone, whatever the network would say. */
  lemma ProcessFolderIdempotent(idText: string, folder: string, tagLanguage: string, coverSource: string, a: Attempt, b: Attempt)
    requires AllDigits(idText)
    requires a.storedCount.Some? && a.storedCount.value != 0 && a.coverOnDisk
    requires b.storedCount.Some? && b.storedCount.value != 0 && b.coverOnDisk
    ensures ProcessFolder(idText, folder, tagLanguage, coverSource, a) == ProcessFolder(idText, folder, tagLanguage, coverSource, b)
    ensures ProcessFolder(idText, folder, tagLanguage, coverSource, a) == FolderRun(Resolved(ProcessResult(Skipped, Skipped)), None, None)
  {
  }

  // ---------------------------------------------------------------------------
  // retryProcessFolder

  /** An attempt the scanner retries: it resolved with 'failed' in either field. */
  predicate Retryable(s: Settled)
  {
    s.Resolved? && (s.result.metadata == Failed || s.result.coverImage == Failed)
  }

  /** At most `retries` attempts, and always at least one. */
  function MaxAttempts(retries: int): nat
  {
    if retries > 1 then retries else 1
  }

  datatype RetryRun = RetryRun(settled: Settled, attempts: nat)

  /**
   * `retryProcessFolder` from the attempt numbered `k`: the outcome and the
   * number of attempts made. It gives up after `MaxAttempts(retries)` attempts,
   * retries exactly the retryable outcomes before that, settles as the last
   * attempt did, and a rejection propagates at once.
   */
  function RetryProcessFolder(idText: string, folder: string, tagLanguage: string, coverSource: string,
                              retries: int, attempt: nat -> Attempt, k: nat): (r: RetryRun)
    requires AllDigits(idText)
    ensures 1 <= r.attempts <= MaxAttempts(retries)
    ensures r.settled == ProcessFolder(idText, folder, tagLanguage, coverSource, attempt(k + r.attempts - 1)).settled
    ensures forall t | k <= t < k + r.attempts - 1 ::
      Retryable(ProcessFolder(idText, folder, tagLanguage, coverSource, attempt(t)).settled)
    ensures r.attempts < MaxAttempts(retries) ==> !Retryable(r.settled)
    decreases if retries > 1 then retries else 0
  {
    var run := ProcessFolder(idText, folder, tagLanguage, coverSource, attempt(k));
    if Retryable(run.settled) && retries > 1 then
      var rest := RetryProcessFolder(idText, folder, tagLanguage, coverSource, retries - 1, attempt, k + 1);
      RetryRun(rest.settled, rest.attempts + 1)
    else
      RetryRun(run.settled, 1)
  }

  /** When every attempt fails, exactly `max(retries, 1)` attempts are made and the last failure is reported. */
  lemma AlwaysFailingRetries(idText: string, folder: string, tagLanguage: string, coverSource: string,
                             retries: int, attempt: nat -> Attempt, k: nat)
    requires AllDigits(idText)
    requires forall t :: Retryable(ProcessFolder(idText, folder, tagLanguage, coverSource, attempt(t)).settled)
    ensures RetryProcessFolder(idText, folder, tagLanguage, coverSource, retries, attempt, k).attempts == MaxAttempts(retries)
    ensures Retryable(RetryProcessFolder(idText, folder, tagLanguage, coverSource, retries, attempt, k).settled)
  {
  }

  /** A first attempt that adds or skips everything is not repeated. */
  lemma SuccessNotRetried(idText: string, folder: string, tagLanguage: string, coverSource: string,
                          retries: int, attempt: nat -> Attempt, k: nat)
    requires AllDigits(idText)
    requires !Retryable(ProcessFolder(idText, folder, tagLanguage, coverSource, attempt(k)).settled)
    ensures RetryProcessFolder(idText, folder, tagLanguage, coverSource, retries, attempt, k)
         == RetryRun(ProcessFolder(idText, folder, tagLanguage, coverSource, attempt(k)).settled, 1)
  {
  }
}
