/**
 * `performScan`: create the Images folder, build the schema, clean up, collect
 * the RJ folders, de-duplicate them, process each one and count the outcomes,
 * emitting 'scan log' events on the socket along the way.
 */
module Scan {

  import opened Wrappers
  import opened Digits
  import opened Dedup
  import opened Folders
  import opened Cleanup

  /** The configuration `processFolderLimited` passes on. */
  datatype Config = Config(tagLanguage: string, coverSource: string, retries: int)

  // ---------------------------------------------------------------------------
  // `folder.match(/RJ(\d{6})/)[1]`

  /** "RJ" followed by six ASCII digits starts at position p. */
  predicate RjAt(s: string, p: int)
  {
    0 <= p && p + 8 <= |s| && s[p] == 'R' && s[p + 1] == 'J' && AllDigits(s[p + 2..p + 8])
  }

  function MatchFrom(s: string, p: nat): (r: Option<string>)
    ensures r.Some? ==> exists q | p <= q :: RjAt(s, q) && r.value == s[q + 2..q + 8] && forall q' | p <= q' < q :: !RjAt(s, q')
    ensures r.None? ==> forall q | p <= q :: !RjAt(s, q)
    decreases |s| - p
  {
    if p + 8 > |s| then None
    else if RjAt(s, p) then Some(s[p + 2..p + 8])
    else MatchFrom(s, p + 1)
  }

  /** The captured group of the leftmost match, or `None` when the path has no RJ code. */
  function MatchRj(path: string): (r: Option<string>)
    ensures r.Some? ==> |r.value| == 6 && AllDigits(r.value)
    ensures r.Some? ==> exists p :: RjAt(path, p) && r.value == path[p + 2..p + 8] && forall q | 0 <= q < p :: !RjAt(path, q)
    ensures r.None? ==> forall p :: !RjAt(path, p)
  {
    MatchFrom(path, 0)
  }

  /**
   * The folders the `for await` loop collects: one entry per path until the first
   * path without an RJ code, where `null[1]` throws and the loop is abandoned.
   */
  function CollectFolders(paths: seq<string>): seq<FolderEntry>
  {
    if paths == [] then []
    else
      match MatchRj(paths[0])
      case None => []
      case Some(id) => [FolderEntry(id, paths[0])] + CollectFolders(paths[1..])
  }

  /**
   * The collected entries are a prefix of the listing, each carrying its own
   * folder's id, and the listing is cut exactly at the first folder without one.
   */
  lemma {:induction false} CollectFoldersShape(paths: seq<string>)
    ensures var entries := CollectFolders(paths);
      && |entries| <= |paths|
      && (forall k | 0 <= k < |entries| :: entries[k].folderDir == paths[k] && MatchRj(paths[k]) == Some(entries[k].id))
      && (|entries| < |paths| ==> MatchRj(paths[|entries|]).None?)
    decreases |paths|
  {
    if paths != [] && MatchRj(paths[0]).Some? {
      var rest := paths[1..];
      CollectFoldersShape(rest);
      var entries := CollectFolders(paths);
      assert entries == [FolderEntry(MatchRj(paths[0]).value, paths[0])] + CollectFolders(rest);
      forall k | 1 <= k < |entries|
        ensures entries[k].folderDir == paths[k] && MatchRj(paths[k]) == Some(entries[k].id)
      {
        assert entries[k] == CollectFolders(rest)[k - 1] && paths[k] == rest[k - 1];
      }
      if |entries| < |paths| {
        assert paths[|entries|] == rest[|entries| - 1];
      }
    }
  }

  // ---------------------------------------------------------------------------
  // Counting

  datatype Counts = Counts(added: nat, skipped: nat, failed: nat)

  /** How the callback files a result: any 'failed' fails it, two 'skipped' skip it, anything else adds it. */
  function Classify(r: ProcessResult): Status
  {
    if r.metadata == Failed || r.coverImage == Failed then Failed
    else if r.metadata == Skipped && r.coverImage == Skipped then Skipped
    else Added
  }

  function Bump(c: Counts, s: Status): Counts
  {
    match s
    case Added => c.(added := c.added + 1)
    case Skipped => c.(skipped := c.skipped + 1)
    case Failed => c.(failed := c.failed + 1)
  }

  function Total(c: Counts): nat { c.added + c.skipped + c.failed }

  /** The counts of a sequence of results. */
  function Tally(rs: seq<ProcessResult>): (c: Counts)
  {
    if rs == [] then Counts(0, 0, 0) else Bump(Tally(rs[..|rs| - 1]), Classify(rs[|rs| - 1]))
  }

  function Plus(a: Counts, b: Counts): Counts
  {
    Counts(a.added + b.added, a.skipped + b.skipped, a.failed + b.failed)
  }

  /** Every result is counted exactly once. */
  lemma {:induction false} TallyTotal(rs: seq<ProcessResult>)
    ensures Total(Tally(rs)) == |rs|
  {
    if rs != [] {
      TallyTotal(rs[..|rs| - 1]);
    }
  }

  lemma {:induction false} TallyAppend(a: seq<ProcessResult>, b: seq<ProcessResult>)
    ensures Tally(a + b) == Plus(Tally(a), Tally(b))
    decreases |b|
  {
    if b == [] {
      assert a + b == a;
    } else {
      var init := b[..|b| - 1];
      var y := b[|b| - 1];
      var ab := a + b;
      assert ab[..|ab| - 1] == a + init && ab[|ab| - 1] == y;
      TallyAppend(a, init);
      assert Tally(ab) == Bump(Tally(a + init), Classify(y));
      assert Tally(b) == Bump(Tally(init), Classify(y));
    }
  }

  lemma MultisetCancel<T>(a: multiset<T>, b: multiset<T>, x: T)
    requires a + multiset{x} == b + multiset{x}
    ensures a == b
  {
    forall e ensures a[e] == b[e] {
      assert (a + multiset{x})[e] == (b + multiset{x})[e];
    }
  }

  /** Taking one result out of the middle. */
  lemma TallyRemove(ss: seq<ProcessResult>, j: nat)
    requires j < |ss|
    ensures multiset(ss[..j] + ss[j + 1..]) + multiset{ss[j]} == multiset(ss)
    ensures Tally(ss) == Bump(Tally(ss[..j] + ss[j + 1..]), Classify(ss[j]))
  {
    SplitAt(ss, j);
    MultisetRemove(ss[..j], ss[j], ss[j + 1..]);
    TallyRemoveCount(ss[..j], ss[j], ss[j + 1..]);
  }

  lemma SplitAt<T>(s: seq<T>, j: nat)
    requires j < |s|
    ensures s == s[..j] + [s[j]] + s[j + 1..]
  {
  }

  lemma MultisetRemove<T>(pre: seq<T>, x: T, post: seq<T>)
    ensures multiset(pre + post) + multiset{x} == multiset(pre + [x] + post)
  {
  }

  lemma TallyRemoveCount(pre: seq<ProcessResult>, x: ProcessResult, post: seq<ProcessResult>)
    ensures Tally(pre + [x] + post) == Bump(Tally(pre + post), Classify(x))
  {
    TallyAppend(pre + [x], post);
    TallySnoc(pre, x);
    TallyAppend(pre, post);
    BumpPlus(Tally(pre), Tally(post), Classify(x));
  }

  lemma BumpPlus(a: Counts, b: Counts, s: Status)
    ensures Plus(Bump(a, s), b) == Bump(Plus(a, b), s)
  {
  }

  /** One more result bumps the count of its class. */
  lemma TallySnoc(rs: seq<ProcessResult>, x: ProcessResult)
    ensures Tally(rs + [x]) == Bump(Tally(rs), Classify(x))
  {
    assert (rs + [x])[..|rs|] == rs;
  }

  /**
   * The callbacks run in whatever order the folders finish; the counts do not
   * depend on it: any rearrangement of the results tallies the same.
   */
  lemma {:induction false} TallyPermutation(rs: seq<ProcessResult>, ss: seq<ProcessResult>)
    requires multiset(rs) == multiset(ss)
    ensures Tally(rs) == Tally(ss)
    decreases |rs|
  {
    if rs != [] {
      var init, x := rs[..|rs| - 1], rs[|rs| - 1];
      assert rs == init + [x];
      assert x in multiset(ss);
      var j :| 0 <= j < |ss| && ss[j] == x;
      var rest := ss[..j] + ss[j + 1..];
      TallyRemove(ss, j);
      MultisetCancel(multiset(init), multiset(rest), x);
      TallyPermutation(init, rest);
    } else {
      assert |ss| == |multiset(ss)| == 0;
    }
  }

  // ---------------------------------------------------------------------------
  // The socket log and the per-folder callback

  /** The 'scan log' events, by the `result` and the numbers in their `detail`. */
  datatype ScanLog =
    | ImagesFolderError(code: string)
    | ScanStarted
    | DuplicatesFound(num: nat, rjcodes: seq<string>)
    | FolderFailed(rjcode: string, failedSoFar: nat)
    | FolderAdded(rjcode: string, addedSoFar: nat)
    | ScanFinished(counts: Counts)

  /** What the callback emits for one result, given the counts after it. */
  function ResultLog(rjcode: string, s: Status, c: Counts): seq<ScanLog>
  {
    match s
    case Failed => [FolderFailed(rjcode, c.failed)]
    case Skipped => []
    case Added => [FolderAdded(rjcode, c.added)]
  }

  /** The state the `.then` callbacks share: `counts` and `processedNum`. */
  class ScanProgress {
    const total: nat
    var counts: Counts
    var processedNum: nat

    /** Duplicates count as skipped from the start. */
    constructor (total: nat, duplicateNum: nat)
      ensures this.total == total && counts == Counts(0, duplicateNum, 0) && processedNum == 0
    {
      this.total := total;
      counts := Counts(0, duplicateNum, 0);
      processedNum := 0;
    }

    /** The callback for one processed folder; the scan is finished once every folder has reported. */
    method Record(rjcode: string, r: ProcessResult) returns (emitted: seq<ScanLog>)
      modifies this
      ensures counts == Bump(old(counts), Classify(r))
      ensures processedNum == old(processedNum) + 1
      ensures emitted == ResultLog(rjcode, Classify(r), counts) + (if processedNum >= total then [ScanFinished(counts)] else [])
    {
      if r.metadata == Failed || r.coverImage == Failed {
        counts := counts.(failed := counts.failed + 1);
        emitted := [FolderFailed(rjcode, counts.failed)];
      } else if r.metadata == Skipped && r.coverImage == Skipped {
        counts := counts.(skipped := counts.skipped + 1);
        emitted := [];
      } else {
        counts := counts.(added := counts.added + 1);
        emitted := [FolderAdded(rjcode, counts.added)];
      }
      processedNum := processedNum + 1;
      if processedNum >= total {
        emitted := emitted + [ScanFinished(counts)];
      }
    }
  }

  // ---------------------------------------------------------------------------
  // The scan

  /** A settled `processFolderLimited` promise and the RJ code its callback reports. */
  datatype Completion = Completion(rjcode: string, settled: Settled)

  /**
   * The `for` loop launching `processFolderLimited` for every unique folder, with
   * how each promise settles; `attempts(i)` answers for folder i.
   */
  function Outcomes(unique: seq<FolderEntry>, config: Config, attempts: nat -> nat -> Attempt): (r: seq<Completion>)
    requires forall k | 0 <= k < |unique| :: AllDigits(unique[k].id)
    ensures |r| == |unique|
  {
    seq(|unique|, i requires 0 <= i < |unique| =>
      Completion(RjCode(unique[i].id),
                 RetryProcessFolder(unique[i].id, unique[i].folderDir, config.tagLanguage, config.coverSource,
                                    config.retries, attempts(i), 0).settled))
  }

  predicate AllResolved(s: seq<Completion>)
  {
    forall k | 0 <= k < |s| :: s[k].settled.Resolved?
  }

  /** The results that reach the callback: a rejected promise never does. */
  function ResolvedResults(s: seq<Completion>): (r: seq<ProcessResult>)
    ensures |r| <= |s|
    ensures |r| == |s| <==> AllResolved(s)
  {
    if s == [] then []
    else
      var init := ResolvedResults(s[..|s| - 1]);
      assert forall k | 0 <= k < |s| - 1 :: s[..|s| - 1][k] == s[k];
      if s[|s| - 1].settled.Resolved? then init + [s[|s| - 1].settled.result] else init
  }

  /** The counts of the finished message: the resolved results, plus the duplicates as skipped. */
  function FinalCounts(duplicateNum: nat, s: seq<Completion>): Counts
  {
    var t := Tally(ResolvedResults(s));
    Counts(t.added, t.skipped + duplicateNum, t.failed)
  }

  /** One more completion adds its result, if it resolved. */
  lemma ResolvedSnoc(s: seq<Completion>, y: Completion)
    ensures ResolvedResults(s + [y]) == ResolvedResults(s) + ResolvedResults([y])
  {
    assert (s + [y])[..|s|] == s;
    assert [y][..0] == [];
  }

  /** Reporting two stretches of completions reports their results one after the other. */
  lemma {:induction false} ResolvedConcat(a: seq<Completion>, b: seq<Completion>)
    ensures ResolvedResults(a + b) == ResolvedResults(a) + ResolvedResults(b)
    decreases |b|
  {
    if b == [] {
      assert a + b == a;
    } else {
      var init, y := b[..|b| - 1], b[|b| - 1];
      assert b == init + [y];
      assert a + b == (a + init) + [y];
      ResolvedConcat(a, init);
      ResolvedSnoc(a + init, y);
      ResolvedSnoc(init, y);
    }
  }

  /** Taking one completion out of the middle takes its result, if any, out of the results. */
  lemma ResolvedRemove(pre: seq<Completion>, x: Completion, post: seq<Completion>)
    ensures multiset(ResolvedResults(pre + [x] + post))
         == multiset(ResolvedResults(pre + post)) + multiset(ResolvedResults([x]))
  {
    ResolvedConcat(pre + [x], post);
    ResolvedConcat(pre, [x]);
    ResolvedConcat(pre, post);
  }

  /** The completions in another order resolve to the same results, in another order. */
  lemma {:induction false} ResolvedPermutation(s: seq<Completion>, s': seq<Completion>)
    requires multiset(s) == multiset(s')
    ensures multiset(ResolvedResults(s)) == multiset(ResolvedResults(s'))
    decreases |s|
  {
    if s == [] {
      assert |s'| == |multiset(s')| == 0;
    } else {
      var init, x := s[..|s| - 1], s[|s| - 1];
      assert s == init + [x];
      assert x in multiset(s');
      var j :| 0 <= j < |s'| && s'[j] == x;
      var rest := s'[..j] + s'[j + 1..];
      assert multiset(init) == multiset(rest) by {
        SplitAt(s', j);
        MultisetRemove(s'[..j], x, s'[j + 1..]);
        MultisetCancel(multiset(init), multiset(rest), x);
      }
      ResolvedPermutation(init, rest);
      assert multiset(ResolvedResults(s)) == multiset(ResolvedResults(init)) + multiset(ResolvedResults([x])) by {
        ResolvedConcat(init, [x]);
      }
      assert multiset(ResolvedResults(s')) == multiset(ResolvedResults(rest)) + multiset(ResolvedResults([x])) by {
        SplitAt(s', j);
        ResolvedRemove(s'[..j], x, s'[j + 1..]);
      }
    }
  }

  /**
   * The callbacks run in whatever order the folders settle; the finished
   * message's counts do not depend on that order.
   */
  lemma FinalCountsPermutation(duplicateNum: nat, s: seq<Completion>, s': seq<Completion>)
    requires multiset(s) == multiset(s')
    ensures FinalCounts(duplicateNum, s) == FinalCounts(duplicateNum, s')
  {
    ResolvedPermutation(s, s');
    TallyPermutation(ResolvedResults(s), ResolvedResults(s'));
  }

  lemma ResolvedStep(s: seq<Completion>, n: nat)
    requires n < |s|
    ensures ResolvedResults(s[..n + 1]) ==
      if s[n].settled.Resolved? then ResolvedResults(s[..n]) + [s[n].settled.result] else ResolvedResults(s[..n])
  {
    assert s[..n + 1][..n] == s[..n];
    assert s[..n + 1][n] == s[n];
  }

  /** One more completion reported: its result, if it resolved, is counted and nothing else changes. */
  lemma FinalCountsStep(duplicateNum: nat, s: seq<Completion>, n: nat)
    requires n < |s|
    ensures |ResolvedResults(s[..n + 1])| == |ResolvedResults(s[..n])| + (if s[n].settled.Resolved? then 1 else 0)
    ensures FinalCounts(duplicateNum, s[..n + 1]) ==
      if s[n].settled.Resolved? then Bump(FinalCounts(duplicateNum, s[..n]), Classify(s[n].settled.result))
      else FinalCounts(duplicateNum, s[..n])
  {
    ResolvedStep(s, n);
    if s[n].settled.Resolved? {
      var prev, y := ResolvedResults(s[..n]), s[n].settled.result;
      assert Tally(prev + [y]) == Bump(Tally(prev), Classify(y)) by {
        assert (prev + [y])[..|prev|] == prev;
      }
    }
  }

  /** The finished message is due exactly when every completion so far resolved and none is left. */
  lemma FinishedWhenAllResolved(s: seq<Completion>, n: nat)
    requires n < |s|
    requires s[n].settled.Resolved?
    ensures |ResolvedResults(s[..n])| + 1 >= |s| <==> n + 1 == |s| && AllResolved(s[..n + 1])
  {
    assert s[..n + 1][..n] == s[..n];
  }

  /** Every folder collected, duplicate or not, is counted once when the scan finishes. */
  lemma FinalCountsCoverAllFolders(folders: seq<FolderEntry>, s: seq<Completion>)
    requires |s| == |Uniqued(folders)|
    requires AllResolved(s)
    ensures Total(FinalCounts(|Dups(folders, 0)|, s)) == |folders|
  {
    TallyTotal(ResolvedResults(s));
    DuplicateCount(folders);
  }

  lemma UniquedIdsAreDigits(folders: seq<FolderEntry>)
    requires forall k | 0 <= k < |folders| :: AllDigits(folders[k].id)
    ensures forall k | 0 <= k < |Uniqued(folders)| :: AllDigits(Uniqued(folders)[k].id)
  {
    UniquedAtKept(folders, 0);
  }

  /**
   * The `for await` loop over the folder list: the id of each folder name is
   * pushed with the folder, and the first name without one ends the loop.
   */
  method CollectRjFolders(paths: seq<string>) returns (rjFolder: seq<FolderEntry>)
    ensures rjFolder == CollectFolders(paths)
  {
    rjFolder := [];
    var i := 0;
    while i < |paths|
      invariant 0 <= i <= |paths|
      invariant rjFolder + CollectFolders(paths[i..]) == CollectFolders(paths)
    {
      var id := MatchRj(paths[i]);
      CollectStep(paths, i);
      if id.None? {
        assert rjFolder == CollectFolders(paths);
        return;
      }
      var entry := FolderEntry(id.value, paths[i]);
      assert rjFolder + [entry] + CollectFolders(paths[i + 1..]) == rjFolder + ([entry] + CollectFolders(paths[i + 1..]));
      rjFolder := rjFolder + [entry];
      i := i + 1;
    }
    assert paths[i..] == [];
  }

  /** One folder name of the listing: collecting stops at it, or records it before the rest. */
  lemma CollectStep(paths: seq<string>, i: nat)
    requires i < |paths|
    ensures MatchRj(paths[i]).None? ==> CollectFolders(paths[i..]) == []
    ensures MatchRj(paths[i]).Some? ==>
      CollectFolders(paths[i..]) == [FolderEntry(MatchRj(paths[i]).value, paths[i])] + CollectFolders(paths[i + 1..])
  {
    assert paths[i..][0] == paths[i];
    assert paths[i..][1..] == paths[i + 1..];
  }

  /** No finished message before the last entry. */
  predicate FinishedOnlyLast(log: seq<ScanLog>)
  {
    forall t | 0 <= t < |log| - 1 :: !log[t].ScanFinished?
  }

  /** The log ends with the finished message. */
  predicate EndsFinished(log: seq<ScanLog>)
  {
    |log| > 0 && log[|log| - 1].ScanFinished?
  }

  /** Appending the events of one callback to a log that is not finished yet. */
  lemma AppendEmitted(log: seq<ScanLog>, emitted: seq<ScanLog>)
    requires FinishedOnlyLast(log) && !EndsFinished(log) && FinishedOnlyLast(emitted)
    ensures FinishedOnlyLast(log + emitted)
    ensures EndsFinished(log + emitted) <==> EndsFinished(emitted)
    ensures EndsFinished(emitted) ==> (log + emitted)[|log + emitted| - 1] == emitted[|emitted| - 1]
  {
    var all := log + emitted;
    forall t | 0 <= t < |all| - 1 ensures !all[t].ScanFinished? {
      if t < |log| {
        assert all[t] == log[t];
      } else {
        assert all[t] == emitted[t - |log|];
      }
    }
  }

  /** What one callback emits: at most one finished message, last, exactly when every folder has reported. */
  lemma EmittedShape(rjcode: string, st: Status, c: Counts, done: bool)
    ensures var emitted := ResultLog(rjcode, st, c) + (if done then [ScanFinished(c)] else []);
      && FinishedOnlyLast(emitted)
      && (EndsFinished(emitted) <==> done)
      && (done ==> emitted[|emitted| - 1] == ScanFinished(c))
  {
  }

  /**
   * The `.then` callbacks of the launched promises, run as they settle (here in
   * launch order): each resolved one is counted and reported. The finished
   * message is emitted once, last, and exactly when every promise resolved.
   */
  method ReportCompletions(completions: seq<Completion>, duplicateNum: nat) returns (log: seq<ScanLog>)
    ensures Reports(log, completions, duplicateNum)
  {
    log := [];
    var progress := new ScanProgress(|completions|, duplicateNum);
    var n := 0;
    while n < |completions|
      invariant 0 <= n <= |completions|
      invariant progress.total == |completions|
      invariant progress.processedNum == |ResolvedResults(completions[..n])|
      invariant progress.counts == FinalCounts(duplicateNum, completions[..n])
      invariant FinishedOnlyLast(log)
      invariant EndsFinished(log) <==> n == |completions| > 0 && AllResolved(completions[..n])
      invariant EndsFinished(log) ==> log[|log| - 1].counts == progress.counts
    {
      var c := completions[n];
      FinalCountsStep(duplicateNum, completions, n);
      if c.settled.Resolved? {
        FinishedWhenAllResolved(completions, n);
        var emitted := progress.Record(c.rjcode, c.settled.result);
        EmittedShape(c.rjcode, Classify(c.settled.result), progress.counts, progress.processedNum >= progress.total);
        AppendEmitted(log, emitted);
        log := log + emitted;
      } else {
        assert !AllResolved(completions[..n + 1]) by {
          assert completions[..n + 1][n] == c;
        }
      }
      n := n + 1;
    }
    assert completions[..n] == completions;
  }

  /**
   * What the callbacks report: no finished message before the last entry; the
   * log ends with one exactly when there was something to process and every
   * promise resolved; and then it carries the final counts.
   */
  predicate Reports(log: seq<ScanLog>, completions: seq<Completion>, duplicateNum: nat)
  {
    && FinishedOnlyLast(log)
    && (EndsFinished(log) <==> |completions| > 0 && AllResolved(completions))
    && (EndsFinished(log) ==> log[|log| - 1].counts == FinalCounts(duplicateNum, completions))
  }

  predicate UniquedIdsOk(folders: seq<FolderEntry>)
  {
    forall k | 0 <= k < |Uniqued(folders)| :: AllDigits(Uniqued(folders)[k].id)
  }

  /** The RJ codes listed in the duplicates message. */
  function DuplicateRjCodes(folders: seq<FolderEntry>): (r: seq<string>)
    ensures |r| == |DuplicateIds(folders)|
  {
    var ids := DuplicateIds(folders);
    seq(|ids|, k requires 0 <= k < |ids| => "RJ" + RjCode(ids[k]))
  }

  /**
   * The scan of a non-empty folder list: the start message, the duplicates
   * message when there are duplicates, then what the callbacks report.
   */
  method ScanCollected(rjFolder: seq<FolderEntry>, config: Config, attempts: nat -> nat -> Attempt) returns (log: seq<ScanLog>)
    requires rjFolder != []
    requires forall k | 0 <= k < |rjFolder| :: AllDigits(rjFolder[k].id)
    ensures UniquedIdsOk(rjFolder) && |Uniqued(rjFolder)| > 0
    ensures |log| >= 1 && log[0] == ScanStarted
    ensures |Dups(rjFolder, 0)| > 0 ==> |log| >= 2 && log[1] == DuplicatesFound(|Dups(rjFolder, 0)|, DuplicateRjCodes(rjFolder))
    ensures Reports(log, Outcomes(Uniqued(rjFolder), config, attempts), |Dups(rjFolder, 0)|)
  {
    var unique, duplicateIds := UniqueArr(rjFolder);
    var duplicateRjCodes := seq(|duplicateIds|, k requires 0 <= k < |duplicateIds| => "RJ" + RjCode(duplicateIds[k]));
    DuplicateCount(rjFolder);
    OuterStep(rjFolder, 0);
    var duplicateNum := |rjFolder| - |unique|;
    log := [ScanStarted];
    if duplicateNum > 0 {
      log := log + [DuplicatesFound(duplicateNum, duplicateRjCodes)];
    }
    assert FinishedOnlyLast(log) && !EndsFinished(log);
    UniquedIdsAreDigits(rjFolder);
    var completions := Outcomes(unique, config, attempts);
    var processed := ReportCompletions(completions, duplicateNum);
    AppendEmitted(log, processed);
    log := log + processed;
  }

  /**
   * The body of the `async` callback after cleanup: collect the folders, report
   * an empty library at once, otherwise scan what was collected.
   */
  method ScanFolders(paths: seq<string>, config: Config, attempts: nat -> nat -> Attempt) returns (log: seq<ScanLog>)
    ensures CollectFolders(paths) == [] ==> log == [ScanStarted, ScanFinished(Counts(0, 0, 0))]
    ensures CollectFolders(paths) != [] ==>
      var folders := CollectFolders(paths);
      && UniquedIdsOk(folders)
      && |log| >= 1 && log[0] == ScanStarted
      && Reports(log, Outcomes(Uniqued(folders), config, attempts), |Dups(folders, 0)|)
  {
    var rjFolder := CollectRjFolders(paths);
    if |rjFolder| == 0 {
      return [ScanStarted, ScanFinished(Counts(0, 0, 0))];
    }
    assert forall k | 0 <= k < |rjFolder| :: AllDigits(rjFolder[k].id) by {
      CollectFoldersShape(paths);
      forall k | 0 <= k < |rjFolder| ensures AllDigits(rjFolder[k].id) {
        assert MatchRj(paths[k]) == Some(rjFolder[k].id);
      }
    }
    log := ScanCollected(rjFolder, config, attempts);
  }

  /** The effects of one `performScan`: the cleanup it ran, if any, and the 'scan log' events. */
  datatype ScanRun = ScanRun(cleanup: Option<CleanupRun>, log: seq<ScanLog>)

  /**
   * `performScan`. An Images folder that cannot be created (other than because
   * it exists) ends everything with one failure message. Otherwise the schema is
   * built and, if that succeeds, the cleanup runs; whether either fails, the
   * scan follows. `mkdirError` is the error code `fs.mkdir` reports, if any, and
   * `schemaOk` whether `createSchema` resolves.
   */
  method PerformScan(mkdirError: Option<string>, schemaOk: bool,
                     rows: seq<WorkRow>, existing: set<string>, removeFails: set<nat>,
                     paths: seq<string>, config: Config, attempts: nat -> nat -> Attempt) returns (run: ScanRun)
    ensures mkdirError.Some? && mkdirError.value != "EEXIST" ==> run == ScanRun(None, [ImagesFolderError(mkdirError.value)])
    ensures mkdirError.None? || mkdirError.value == "EEXIST" ==>
      && run.cleanup == (if schemaOk then Some(PerformCleanup(rows, existing, removeFails)) else None)
      && |run.log| >= 1 && run.log[0] == ScanStarted
      && (CollectFolders(paths) == [] ==> run.log == [ScanStarted, ScanFinished(Counts(0, 0, 0))])
      && (CollectFolders(paths) != [] ==>
            UniquedIdsOk(CollectFolders(paths))
            && Reports(run.log, Outcomes(Uniqued(CollectFolders(paths)), config, attempts), |Dups(CollectFolders(paths), 0)|))
  {
    if mkdirError.Some? && mkdirError.value != "EEXIST" {
      return ScanRun(None, [ImagesFolderError(mkdirError.value)]);
    }
    var cleanup := if schemaOk then Some(PerformCleanup(rows, existing, removeFails)) else None;
    var log := ScanFolders(paths, config, attempts);
    run := ScanRun(cleanup, log);
  }
}
