# subdomainradar — a verified model of the batch scanner

`subdomainradar.py` reads a list of domain names from a file. It fetches the
scanning service's enumerators once, then processes the domains in batches of
five. For every domain it launches a scan and polls the task status until the
task reads `"processing"` or `"failed"`. If the task reads `"processing"`, it
writes the subdomain names it found to `<domain without extension>.txt`, one
name per line.

This project models the deterministic core of that script in Dafny and proves
its properties:

- `InputLines`: cleaning of the input lines (`line.strip()`, dropping blank
  lines, keeping the order).
- `OutputNames`: the output file name (`os.path.splitext` on POSIX paths,
  then `.txt`).
- `Polling`: the wait loop as a state machine over the replies the service
  gives, and the extraction of the names from a `"processing"` reply.
- `OutputFile`: the content the save routine writes.
- `Batching`: the cut of the domain list into slices of five.
- `Orchestrator`: `process_domain`, `process_batch` and `main` tied together.
  The service's behaviour for each domain is an input (a `Scan`). The output
  files are a map from file name to content.
- `Wrappers`: an `Option` type.

The code treats the status `"processing"` as "finished with results" (line 74)
and the model follows the code. Every other status value, including one the
service never sends, keeps the loop waiting.

## Model

| member | source | states |
|---|---|---|
| InputLines.StripLeading | subdomainradar.py:119 | the result is a suffix of the line and does not start with whitespace |
| InputLines.StripLeadingRemovesBlank | subdomainradar.py:119 | only whitespace is removed from the front |
| InputLines.StripTrailing | subdomainradar.py:119 | the result is a prefix of the line and does not end with whitespace |
| InputLines.StripTrailingRemovesBlank | subdomainradar.py:119 | only whitespace is removed from the back |
| InputLines.Strip | subdomainradar.py:119 | `line.strip()` is no longer than the line and neither starts nor ends with whitespace |
| InputLines.StripEmpty | subdomainradar.py:119 | a line strips to the empty string exactly when it is all whitespace, which is what the `if line.strip()` filter tests |
| InputLines.StripIsInfix | subdomainradar.py:119 | the stripped line is an infix of the line with only whitespace around it |
| InputLines.StripLeadingAt | subdomainradar.py:119 | leading-whitespace removal stops at the first non-whitespace character |
| InputLines.StripTrailingAt | subdomainradar.py:119 | trailing-whitespace removal stops after the last non-whitespace character |
| InputLines.StripUnique | subdomainradar.py:119 | any infix with only whitespace around it that neither starts nor ends with whitespace is the stripped line |
| InputLines.StripIdempotent | subdomainradar.py:119 | stripping twice is stripping once |
| InputLines.VisibleAsciiNotSpace | subdomainradar.py:119 | no visible ASCII character (`!` to `~`) is whitespace |
| InputLines.StripVisible | subdomainradar.py:119 | a line of visible ASCII characters only, such as an ASCII host name, is kept unchanged by `strip()` |
| InputLines.Normalise | subdomainradar.py:119 | the cleaned list is no longer than the input |
| InputLines.NormaliseAppend | subdomainradar.py:119 | cleaning a concatenation cleans each part, in order |
| InputLines.NormaliseSnoc | subdomainradar.py:119 | one more line adds its stripped form at the end, or nothing when it is blank |
| InputLines.NormaliseSingle | subdomainradar.py:119 | a single line gives its stripped form, or nothing when it is blank |
| InputLines.NormaliseKeeps | subdomainradar.py:119 | every non-blank line is kept, stripped, after the domains of the lines before it |
| InputLines.NormaliseOrigin | subdomainradar.py:119 | every cleaned domain is the stripped form of a non-blank line, at the position the lines before it give |
| InputLines.NormaliseNonEmpty | subdomainradar.py:119 | no cleaned domain is empty |
| Batching.Slice | subdomainradar.py:123 | `domains[i:i + 5]` has the elements from `i` on, cut short at the end of the list |
| Batching.Batches | subdomainradar.py:121-123 | the batches concatenate back to the domain list; there are ceil(n/5) of them; each holds 1 to 5 domains; all but the last hold 5; batch k is the slice that starts at domain 5k |
| OutputNames.LastIndex | subdomainradar.py:60 | `rfind` of one character: -1 or an index holding it, with none after it |
| OutputNames.SplitExt | subdomainradar.py:60 | `splitext` gives a root and an extension that concatenate to the path; the extension is empty or a dot followed by no dot and no slash |
| OutputNames.SplitExtAtExtension | subdomainradar.py:60 | the split is at position d exactly when d is a dot after the last slash, with no later dot and with a non-dot character before it in the same component |
| OutputNames.OutputNameDropsExtension | subdomainradar.py:60-61 | with an extension at d, the output name is the text before d followed by `.txt` |
| OutputNames.OutputNameKeepsAll | subdomainradar.py:60-61 | without an extension, the output name is the whole domain followed by `.txt` |
| OutputNames.OutputNameWithoutDot | subdomainradar.py:60-61 | a domain without a dot keeps its full text |
| OutputNames.OutputNameLeadingDot | subdomainradar.py:60-61 | a leading dot is not an extension |
| OutputNames.OutputNameExample | subdomainradar.py:60-61 | `example.com` goes to `example.txt` |
| OutputNames.OutputNameExampleSubdomain | subdomainradar.py:60-61 | `sub.example.co.uk` goes to `sub.example.co.txt`: only the last label is dropped |
| OutputNames.OutputNameExampleNoExtension | subdomainradar.py:60-61 | `localhost` and `.com` keep their full text |
| OutputNames.OutputNamesCollide | subdomainradar.py:60-61 | `example.com` and `example.org` share one output file |
| Polling.ExtractNames | subdomainradar.py:75 | the comprehension succeeds exactly when every entry has a `subdomain` key, and then gives those values in order |
| Polling.ExtractSubdomains | subdomainradar.py:75 | a missing `subdomains` key gives no names; otherwise the result is as for `ExtractNames` |
| Polling.Decide | subdomainradar.py:71-82 | a reply keeps the loop waiting exactly when it has a `status` that is neither `"processing"` nor `"failed"`; otherwise it ends the loop |
| Polling.WaitForTask | subdomainradar.py:70-83 | the loop's outcome is the first terminal reply's. Every earlier reply kept it waiting, and it stopped at that reply. With no terminal reply it used up all the replies |
| Polling.FirstStopIgnoresLater | subdomainradar.py:70-83 | replies after the terminal one make no difference |
| Polling.FirstStopSkipsWaiting | subdomainradar.py:79-83 | replies that keep waiting are passed over, whatever their status text |
| Polling.FirstStopReady | subdomainradar.py:74-78 | a ready outcome comes from a `"processing"` reply preceded only by waiting replies, and carries that reply's names |
| OutputFile.SerialisedSnoc | subdomainradar.py:53-54 | writing one more name appends it and a line feed |
| OutputFile.WriteSubdomains | subdomainradar.py:52-54 | the file holds exactly every name followed by a line feed, in order |
| OutputFile.SerialisedLength | subdomainradar.py:52-54 | the file length is the total name length plus one per name; no names give an empty file |
| OutputFile.ReadLinesSerialised | subdomainradar.py:52-54 | reading the file back line by line gives the names, when no name holds a line feed |
| OutputFile.SerialisedExample | subdomainradar.py:53-54 | `["a.example.com", "b.example.com"]` is written as two lines in that order; no names give an empty file |
| Orchestrator.Expected | subdomainradar.py:121-125 | exactly one outcome per domain |
| Orchestrator.ExpectedAt | subdomainradar.py:121-125 | entry j is the outcome of domain j against its scan |
| Orchestrator.ProcessDomain | subdomainradar.py:56-86 | processing a domain ends as the first terminal reply of its scan says; a failed launch is caught and ends it with nothing written |
| Orchestrator.SavedOnlyWhenReady | subdomainradar.py:70-78 | a file is written only when the scan was launched and its first terminal reply reads `"processing"`; it goes to the domain's output name and holds that reply's names |
| Orchestrator.SavedWhenReady | subdomainradar.py:70-78 | waiting replies followed by a readable `"processing"` reply always save, whatever replies come after |
| Orchestrator.ReadyWithoutListSavesEmpty | subdomainradar.py:74-76 | a `"processing"` reply without a `subdomains` key saves an empty file, not an error |
| Orchestrator.FailedWritesNothing | subdomainradar.py:79-81 | a first terminal reply of `"failed"` writes nothing |
| Orchestrator.ProcessBatch | subdomainradar.py:88-94 | every domain of the batch is processed against its own scan, in batch order |
| Orchestrator.FilesWritten | subdomainradar.py:76 | a file exists exactly when some domain saved to that name |
| Orchestrator.LastWriteWins | subdomainradar.py:76 | a file holds the content of the last domain that saved to its name |
| Orchestrator.FilesCount | subdomainradar.py:76 | there are no more files than saved domains, and no more than domains |
| Orchestrator.SaveBatch | subdomainradar.py:76 | the batch's saves, one after another, give the files of all results so far |
| Orchestrator.ProcessNext | subdomainradar.py:122-125 | one pass of the batch loop adds the batch's results and files and keeps the loop state |
| Orchestrator.ProcessAll | subdomainradar.py:121-125 | the results are those of the domains in input order. Processing stops early only after a batch with a still-waiting scan. Only that last batch holds waiting scans. The files are those the saved results write |
| Orchestrator.Run | subdomainradar.py:96-125 | too few arguments, a missing input file or a failed enumerator request exit with status 1 before any domain is processed. Otherwise the results are as for `ProcessAll` over the cleaned lines. There is an exit status, 0, exactly when no scan is still waiting, and then every domain was processed. While a scan is still waiting, `main` never returns, so there is no exit status |

## Left out

- The HTTP requests in `get_all_enumerators`, `launch_scan` and `get_task_status` (lines 7-46) are not modelled; only their outcomes are. `Run` takes whether the enumerator request succeeded. `Scan.launch` gives the task id or a failed launch. Each `StatusReply` is a decoded body or a raised exception. The request payloads, headers, timeouts and the enumerator names are not modelled.
- `time.sleep(5)` and unbounded waiting (line 83): a scan's replies are a finite sequence. A domain whose replies run out without a terminal one ends as `Pending`, which stands for a loop that would go on polling. `Run` then gives no exit status (`None`), because the thread pool of that batch, and so `main`, never finishes.
- The thread pool of `process_batch` (lines 92-94) is not modelled: the domains of a batch run one after another in batch order. When two domains of one batch share an output name, the source's write order depends on thread timing; the model lets the later domain win.
- The `print` calls are left out: they affect nothing else.
- `Run`: the argument values and the base URL are not modelled, only the argument count and whether the input file exists. `sys.exit(1)` is modelled as exit status 1.
- Reading the input file (line 118) is not modelled: `Run` takes its lines. Python's universal-newline splitting and decoding errors are left out.
- I/O errors while opening or writing an output file, and a partly written file after such an error, are not modelled.
- JSON bodies of another shape are not modelled: a `status` that is not a string, a `subdomains` value that is `null` or not a list, an entry that is not an object. A missing key is modelled, as `None`.
- `OutputNames.SplitExt` follows the POSIX path rules only; the Windows rules (`\` and drive letters) are not modelled.
- `Run` requires one `Scan` per cleaned domain. This describes the service's behaviour; it is not a demand the source makes.
