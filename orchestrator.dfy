/**
 * `process_domain`, `process_batch` and `main` from the point where the
 * enumerators are fetched: each domain's scan is launched, waited for and,
 * on success, its results are written to the domain's output file; batches
 * are processed one after another in input order.
 */
module Orchestrator {
  import opened Wrappers
  import opened InputLines
  import opened Batching
  import opened OutputNames
  import opened Polling
  import opened OutputFile

  /**
   * What the remote service does for one domain: `launch_scan` gives a task
   * id, or raises (`None`); `replies` are the answers to the successive
   * status requests for that task.
   */
  datatype Scan = Scan(launch: Option<string>, replies: seq<StatusReply>)

  /** How the processing of one domain ends. */
  datatype DomainResult =
    | Saved(filename: string, content: string)   // the output file was written with `content`
    | Failed                                      // the scan reached "failed"; nothing written
    | Errored                                     // an exception was caught and printed; nothing written
    | Pending                                     // no terminal reply among those given; the real loop goes on polling

  /** The result `process_domain` reaches for `domain` against `scan`. */
  function DomainOutcome(domain: string, scan: Scan): DomainResult {
    if scan.launch.None? then Errored
    else match FirstStop(scan.replies)
      case Ready(names) => Saved(OutputName(domain), Serialised(names))
      case ScanFailed => Failed
      case Raised => Errored
      case StillWaiting => Pending
  }

  /** The results of processing every domain against its scan, in order. */
  function Expected(domains: seq<string>, scans: seq<Scan>): (r: seq<DomainResult>)
    requires |scans| == |domains|
    ensures |r| == |domains|
  {
    if domains == [] then [] else [DomainOutcome(domains[0], scans[0])] + Expected(domains[1..], scans[1..])
  }

  /** Entry `j` of `Expected` is the outcome of domain `j`. */
  lemma {:induction false} ExpectedAt(domains: seq<string>, scans: seq<Scan>, j: nat)
    requires |scans| == |domains| && j < |domains|
    ensures Expected(domains, scans)[j] == DomainOutcome(domains[j], scans[j])
  {
    if j > 0 {
      ExpectedAt(domains[1..], scans[1..], j - 1);
    }
  }

  /**
   * `process_domain`: derive the output name, launch the scan, wait in the
   * poll loop and write the file once the task reads "processing". Every
   * exception ends the domain's processing and writes nothing.
   */
  method ProcessDomain(domain: string, scan: Scan) returns (result: DomainResult)
    ensures result == DomainOutcome(domain, scan)
  {
    var outputFilename := OutputName(domain);
    if scan.launch.None? {
      return Errored;
    }
    var outcome, _ := WaitForTask(scan.replies);
    match outcome
    case Ready(subdomains) =>
      var content := WriteSubdomains(subdomains);
      result := Saved(outputFilename, content);
    case ScanFailed =>
      result := Failed;
    case Raised =>
      result := Errored;
    case StillWaiting =>
      result := Pending;
  }

  /**
   * A domain's file is written only when its scan was launched and the
   * first terminal reply reads "processing": every earlier reply kept the
   * loop waiting, and the file holds the names of that reply, one per line.
   */
  lemma {:induction false} SavedOnlyWhenReady(domain: string, scan: Scan) returns (k: nat)
    requires DomainOutcome(domain, scan).Saved?
    ensures scan.launch.Some? && k < |scan.replies|
    ensures forall j :: 0 <= j < k ==> Decide(scan.replies[j]) == Continue
    ensures scan.replies[k].Reply? && scan.replies[k].body.status == Some(ReadyStatus)
    ensures var names := ExtractSubdomains(scan.replies[k].body);
      && names.Some?
      && DomainOutcome(domain, scan) == Saved(OutputName(domain), Serialised(names.value))
  {
    k := FirstStopReady(scan.replies, FirstStop(scan.replies).subdomains);
  }

  /**
   * Conversely, a launched scan whose replies keep waiting until a
   * "processing" reply with readable names is saved, whatever replies follow.
   */
  lemma SavedWhenReady(domain: string, scan: Scan, k: nat, names: seq<string>)
    requires scan.launch.Some? && k < |scan.replies|
    requires forall j :: 0 <= j < k ==> Decide(scan.replies[j]) == Continue
    requires scan.replies[k].Reply? && scan.replies[k].body.status == Some(ReadyStatus)
    requires ExtractSubdomains(scan.replies[k].body) == Some(names)
    ensures DomainOutcome(domain, scan) == Saved(OutputName(domain), Serialised(names))
  {
    var replies := scan.replies;
    assert FirstStop(replies) == FirstStop(replies[k..]) by {
      assert replies == replies[..k] + replies[k..];
      FirstStopSkipsWaiting(replies[..k], replies[k..]);
    }
    assert FirstStop(replies[k..]) == Ready(names) by {
      assert replies[k..][0] == replies[k];
    }
  }

  /** A first reply that reads "processing" without a `subdomains` key saves an empty file. */
  lemma ReadyWithoutListSavesEmpty(domain: string, scan: Scan)
    requires scan.launch.Some? && |scan.replies| > 0
    requires scan.replies[0] == Reply(TaskStatus(Some(ReadyStatus), None))
    ensures DomainOutcome(domain, scan) == Saved(OutputName(domain), "")
  {
  }

  /** A scan whose first terminal reply reads "failed" writes nothing. */
  lemma FailedWritesNothing(domain: string, scan: Scan, k: nat)
    requires scan.launch.Some? && k < |scan.replies|
    requires forall j :: 0 <= j < k ==> Decide(scan.replies[j]) == Continue
    requires scan.replies[k].Reply? && scan.replies[k].body.status == Some(FailedStatus)
    ensures DomainOutcome(domain, scan) == Failed
  {
    var replies := scan.replies;
    assert FirstStop(replies) == FirstStop(replies[k..]) by {
      assert replies == replies[..k] + replies[k..];
      FirstStopSkipsWaiting(replies[..k], replies[k..]);
    }
    assert FirstStop(replies[k..]) == ScanFailed by {
      assert replies[k..][0] == replies[k];
    }
  }

  /**
   * `process_batch`: every domain of the batch is processed, each against
   * its own scan. The thread pool's interleaving is not modelled; the
   * domains run one after another in batch order.
   */
  method ProcessBatch(batch: seq<string>, scans: seq<Scan>) returns (results: seq<DomainResult>)
    requires |scans| == |batch|
    ensures |results| == |batch|
    ensures forall j :: 0 <= j < |batch| ==> results[j] == DomainOutcome(batch[j], scans[j])
  {
    results := [];
    for j := 0 to |batch|
      invariant |results| == j
      invariant forall m :: 0 <= m < j ==> results[m] == DomainOutcome(batch[m], scans[m])
    {
      var result := ProcessDomain(batch[j], scans[j]);
      results := results + [result];
    }
  }

  /**
   * The output files once `results` have been reached in order: every saved
   * domain (re)writes its file with its content, so of two domains that share
   * a file name the later one's content remains.
   */
  function Files(results: seq<DomainResult>): map<string, string> {
    if results == [] then map[]
    else
      var last := results[|results| - 1];
      var before := Files(results[..|results| - 1]);
      if last.Saved? then before[last.filename := last.content] else before
  }

  /** One more result adds its file, if it saved one. */
  lemma FilesSnoc(results: seq<DomainResult>, last: DomainResult)
    ensures Files(results + [last]) == if last.Saved? then Files(results)[last.filename := last.content] else Files(results)
  {
    assert (results + [last])[..|results|] == results;
  }

  /** A file exists exactly when some domain saved to that name. */
  lemma {:induction false} FilesWritten(results: seq<DomainResult>, name: string)
    ensures name in Files(results) <==> exists j :: 0 <= j < |results| && results[j].Saved? && results[j].filename == name
  {
    if results != [] {
      var n := |results| - 1;
      var init := results[..n];
      FilesWritten(init, name);
      assert results == init + [results[n]];
      FilesSnoc(init, results[n]);
      if exists j :: 0 <= j < |init| && init[j].Saved? && init[j].filename == name {
        var j :| 0 <= j < |init| && init[j].Saved? && init[j].filename == name;
        assert results[j] == init[j];
      }
      if exists j :: 0 <= j < |results| && results[j].Saved? && results[j].filename == name {
        var j :| 0 <= j < |results| && results[j].Saved? && results[j].filename == name;
        if j < n {
          assert init[j] == results[j];
        }
      }
    }
  }

  /** A file holds the content of the last domain that saved to its name. */
  lemma {:induction false} LastWriteWins(results: seq<DomainResult>, j: nat)
    requires j < |results| && results[j].Saved?
    requires forall m :: j < m < |results| && results[m].Saved? ==> results[m].filename != results[j].filename
    ensures results[j].filename in Files(results)
    ensures Files(results)[results[j].filename] == results[j].content
  {
    var n := |results| - 1;
    var init := results[..n];
    assert results == init + [results[n]];
    FilesSnoc(init, results[n]);
    if j < n {
      assert init[j] == results[j];
      LastWriteWins(init, j);
    }
  }

  /** There are never more files than saved domains, nor more than domains. */
  lemma {:induction false} FilesCount(results: seq<DomainResult>)
    ensures |Files(results)| <= SavedCount(results) <= |results|
  {
    if results != [] {
      var n := |results| - 1;
      FilesCount(results[..n]);
    }
  }

  /** The number of saved domains among `results`. */
  function SavedCount(results: seq<DomainResult>): nat {
    if results == [] then 0
    else SavedCount(results[..|results| - 1]) + if results[|results| - 1].Saved? then 1 else 0
  }

  /** No domain failed to finish: every scan reached a terminal reply or raised. */
  predicate NonePending(results: seq<DomainResult>) {
    forall j :: 0 <= j < |results| ==> !results[j].Pending?
  }

  /**
   * `main` from the usage check on. Command-line arguments, the existence of
   * the input file and the enumerator request are given as their outcomes;
   * `lines` are the lines of the input file and `scans[j]` is what the
   * service does for the `j`-th domain of the cleaned list. A failed check
   * exits with status 1 before any domain is processed. Otherwise the
   * domains are processed batch by batch in input order; a batch with a
   * domain whose scan never ends keeps its thread pool, and so `main`,
   * waiting: no later batch starts and `main` never returns, so there is no
   * exit status (`None`). When every domain's processing ends, `main`
   * returns normally after all the domains, with status 0.
   */
  method Run(argCount: nat, inputExists: bool, enumeratorsFetched: bool, lines: seq<string>, scans: seq<Scan>)
    returns (exitCode: Option<int>, results: seq<DomainResult>, files: map<string, string>)
    requires |scans| == |Normalise(lines)|
    ensures exitCode.Some? <==> argCount < 3 || !inputExists || !enumeratorsFetched || NonePending(results)
    ensures argCount < 3 || !inputExists || !enumeratorsFetched ==> exitCode == Some(1) && results == [] && files == map[]
    ensures exitCode == Some(0) <==> argCount >= 3 && inputExists && enumeratorsFetched && NonePending(results)
    ensures exitCode == Some(0) ==> |results| == |Normalise(lines)|
    ensures |results| <= |Normalise(lines)|
    ensures forall j :: 0 <= j < |results| ==> results[j] == DomainOutcome(Normalise(lines)[j], scans[j])
    ensures exitCode != Some(1) && |results| < |Normalise(lines)| ==>
      && |results| % BatchSize == 0
      && exists j :: 0 <= j < |results| && |results| - BatchSize <= j && results[j].Pending?
    ensures forall j, m :: 0 <= j < m < |results| && results[j].Pending? ==> BatchOf(j) == BatchOf(m)
    ensures files == Files(results)
  {
    if argCount < 3 || !inputExists || !enumeratorsFetched {
      return Some(1), [], map[];
    }
    var domains := Normalise(lines);
    results, files := ProcessAll(domains, scans);
    exitCode := if NonePending(results) then Some(0) else None;
    forall j | 0 <= j < |results|
      ensures results[j] == DomainOutcome(domains[j], scans[j])
    {
      ExpectedAt(domains, scans, j);
      assert results[j] == Expected(domains, scans)[..|results|][j];
    }
  }

  /**
   * The batch loop of `main`: the domains are processed batch by batch in
   * input order, and a batch with a domain whose scan never ends would keep
   * its thread pool, and so `main`, waiting: no later batch starts.
   */
  method ProcessAll(domains: seq<string>, scans: seq<Scan>) returns (results: seq<DomainResult>, files: map<string, string>)
    requires |scans| == |domains|
    ensures |results| <= |domains|
    ensures results == Expected(domains, scans)[..|results|]
    ensures |results| < |domains| ==>
      && |results| % BatchSize == 0
      && exists j :: 0 <= j < |results| && |results| - BatchSize <= j && results[j].Pending?
    ensures forall j, m :: 0 <= j < m < |results| && results[j].Pending? ==> BatchOf(j) == BatchOf(m)
    ensures files == Files(results)
  {
    results, files := [], map[];
    var batches := Batches(domains);
    var b, i := 0, 0;
    while b < |batches| && NonePending(results)
      invariant b <= |batches| && i == b * BatchSize
      invariant Progress(domains, scans, results, i)
      invariant files == Files(results)
    {
      BatchStart(|domains|, |batches|, b);
      results, files := ProcessNext(domains, scans, results, files, i, batches[b]);
      b, i := b + 1, i + BatchSize;
    }
    BatchesEnd(|domains|, |batches|, b);
    ProgressDone(domains, scans, results, b, i);
  }

  /**
   * One pass of the batch loop: `batch = domains[i:i + batch_size]` is
   * processed and its results and files are added.
   */
  method ProcessNext(domains: seq<string>, scans: seq<Scan>, results: seq<DomainResult>, files: map<string, string>,
                     i: nat, batch: seq<string>)
    returns (next: seq<DomainResult>, nextFiles: map<string, string>)
    requires |scans| == |domains| && i < |domains| && Progress(domains, scans, results, i) && NonePending(results)
    requires batch == Slice(domains, i, i + BatchSize)
    requires files == Files(results)
    ensures Progress(domains, scans, next, i + BatchSize)
    ensures nextFiles == Files(next)
  {
    var batchScans := Slice(scans, i, i + BatchSize);
    var batchResults := ProcessBatch(batch, batchScans);
    nextFiles := SaveBatch(files, results, batchResults);
    StepOutcomes(domains, scans, results, i, batch, batchScans, batchResults);
    StepPending(results, i, batchResults);
    next := results + batchResults;
  }

  /**
   * The state of `main`'s batch loop once the domains before `i` have been
   * handed to `process_batch`: their results are those of `Expected`, and
   * only the last batch (the one before `i`) may still be waiting for a scan.
   */
  ghost predicate Progress(domains: seq<string>, scans: seq<Scan>, results: seq<DomainResult>, i: nat)
    requires |scans| == |domains|
  {
    && |results| == (if i <= |domains| then i else |domains|)
    && results == Expected(domains, scans)[..|results|]
    && (forall j :: 0 <= j < |results| && results[j].Pending? ==> i - BatchSize <= j)
  }

  /** The batch's results continue the results of the domains before it. */
  lemma StepOutcomes(domains: seq<string>, scans: seq<Scan>, results: seq<DomainResult>, i: nat,
                     batch: seq<string>, batchScans: seq<Scan>, batchResults: seq<DomainResult>)
    requires |scans| == |domains| && i < |domains| && |results| == i
    requires results == Expected(domains, scans)[..i]
    requires batch == Slice(domains, i, i + BatchSize) && batchScans == Slice(scans, i, i + BatchSize)
    requires |batchResults| == |batch|
    requires forall m :: 0 <= m < |batch| ==> batchResults[m] == DomainOutcome(batch[m], batchScans[m])
    ensures results + batchResults == Expected(domains, scans)[..i + |batch|]
  {
    var next := results + batchResults;
    var expected := Expected(domains, scans);
    forall j | 0 <= j < |next|
      ensures next[j] == expected[j]
    {
      ExpectedAt(domains, scans, j);
      if j >= i {
        assert next[j] == batchResults[j - i];
      } else {
        assert next[j] == results[j] == expected[..i][j];
      }
    }
  }

  /** Before any batch, pending results can only be in the batch just added. */
  lemma StepPending(results: seq<DomainResult>, i: nat, batchResults: seq<DomainResult>)
    requires |results| == i && NonePending(results)
    ensures var next := results + batchResults;
      forall j :: 0 <= j < |next| && next[j].Pending? ==> i <= j
  {
    var next := results + batchResults;
    assert forall j :: 0 <= j < |results| ==> next[j] == results[j];
  }

  /** Batch `b` of the `ceil(n / 5)` batches starts at domain `5 * b`, inside the `n` domains. */
  lemma BatchStart(n: nat, count: nat, b: nat)
    requires count == (n + BatchSize - 1) / BatchSize && b < count
    ensures b * BatchSize < n && (b + 1) * BatchSize == b * BatchSize + BatchSize
  {
  }

  /** After all `ceil(n / 5)` batches, the `n` domains are used up. */
  lemma BatchesEnd(n: nat, count: nat, b: nat)
    requires count == (n + BatchSize - 1) / BatchSize && b <= count
    ensures b == count ==> n <= b * BatchSize
  {
  }

  /** When the batch loop stops, `Run`'s postconditions on the results hold. */
  lemma ProgressDone(domains: seq<string>, scans: seq<Scan>, results: seq<DomainResult>, b: nat, i: nat)
    requires |scans| == |domains| && i == b * BatchSize
    requires Progress(domains, scans, results, i)
    requires !NonePending(results) || |domains| <= i
    ensures |results| <= |domains|
    ensures |results| < |domains| ==>
      && |results| % BatchSize == 0
      && exists j :: 0 <= j < |results| && |results| - BatchSize <= j && results[j].Pending?
    ensures forall j, m :: 0 <= j < m < |results| && results[j].Pending? ==> BatchOf(j) == BatchOf(m)
  {
    assert i % BatchSize == 0;
    SameBatch(results, i);
  }

  /** The files after the saves of `batchResults`, written one after another. */
  method SaveBatch(files: map<string, string>, results: seq<DomainResult>, batchResults: seq<DomainResult>)
    returns (updated: map<string, string>)
    requires files == Files(results)
    ensures updated == Files(results + batchResults)
  {
    updated := files;
    assert results + batchResults[..0] == results;
    for m := 0 to |batchResults|
      invariant updated == Files(results + batchResults[..m])
    {
      assert results + batchResults[..m + 1] == (results + batchResults[..m]) + [batchResults[m]];
      FilesSnoc(results + batchResults[..m], batchResults[m]);
      if batchResults[m].Saved? {
        updated := updated[batchResults[m].filename := batchResults[m].content];
      }
    }
    assert batchResults[..|batchResults|] == batchResults;
  }

  /** The number of the batch (counting from 0) that holds the domain at position `j`. */
  function BatchOf(j: nat): nat {
    j / BatchSize
  }

  /** Pending results that all lie in the last five positions before `i` share one batch. */
  lemma SameBatch(results: seq<DomainResult>, i: nat)
    requires |results| <= i && i % BatchSize == 0
    requires forall j :: 0 <= j < |results| && results[j].Pending? ==> i - BatchSize <= j
    ensures forall j, m :: 0 <= j < m < |results| && results[j].Pending? ==> BatchOf(j) == BatchOf(m)
  {
  }
}
