# jr-golden-sd: job status, disk logic and the patch engine, in Dafny

jr-golden-sd is a small Flask service (`app/app.py`) that prepares boot media for a Raspberry
Pi-style board. Most of its behaviour is not in `app/app.py` as committed. Instead, a set of
scripts rewrites that file as text, injecting code into its handlers. This project models:

- **Job-status reconciliation ("rc wins").** A finished job leaves its exit code in
  `cache/jobs/<id>.rc`. The injected code lets that file decide `status`, `rc`, `exit_code` and
  `done`, and otherwise falls back on whether the job's pid is alive. Six variants are modelled
  as pure functions of the job record, the rc file probe and the set of live pids. Module
  `JobStatus` holds all six and proves where they agree and where they differ. Module `JobId`
  holds the job-id whitelist that guards the file names.
- **Disk logic.** `parent_disk` and the `is_root_disk` annotation of `/api/disks` (`AppDisks`).
  The device snapshot and the "Option A" flash-target rule of `/api/devices` (`Devices`).
- **The OS catalog search** injected into `/api/os`: alias rewriting, tokenisation, an
  all-terms match and an order-keeping filter (`CatalogSearch`, `QueryAlias`).
- **The patch engine.** app/app.py is handled as a list of lines (`Lines`, `AppLines`,
  `LinePattern`, `Text`). There is one module per script: it finds its anchor lines, checks its
  marker, splices lines in or out and decides whether to write. The scripts' scanning loops are
  methods (`...Run`, `...Scan`) proved equal to the functions that specify them.
- **The version helper** that two scripts inject into app/app.py: `git describe` precedence and
  the leading `vMAJOR.MINOR.PATCH` (`Versioning`).

Each script's outcome is an `Outcome`: `Write(content)`, or `Exit(code)` when the script stops
without writing. A run that finds its marker already in place is shown to leave the text as it
is, or to write back the same text.

## Model

| member | source | states |
|---|---|---|
| JobId.ValidJobIdStaysInDirectory | scripts/harden-jobs-v2.py:85-86 | an id that passes the `[A-Za-z0-9_-]+` whitelist holds no '/', no NUL and is neither "." nor "..", so `cache/jobs/<id>.rc` stays one file inside the jobs directory |
| JobId.ApiJobGuard | scripts/harden-jobs-v2.py:133-138 | the injected `api_job` guard lets the request through exactly when the id passes the whitelist, and otherwise answers 400 with `ok` False and error "invalid job_id" |
| JobStatus.RcValue | scripts/harden-jobs-v2.py:88-92 | the rc text is stripped and parsed by `int()`; the value is an integer exactly when `int()` accepts the stripped text, and None otherwise |
| JobStatus.StatusFor | scripts/harden-jobs-v2.py:95 | the status is 'success' exactly for rc 0 and 'failed' for every other value, None included |
| JobStatus.NoteError | scripts/harden-jobs-v2.py:104-106 | `setdefault('status_note', ...)`: an existing note is kept; otherwise the note is "status_enrich_error: " followed by the exception message |
| JobStatus.ApplyRc | scripts/harden-jobs-v2.py:93-96 | the rc branch sets `rc` (and `exit_code` when the variant writes it) to the parsed value, `status` from it and `done` to True, and keeps every other key and its value |
| JobStatus.HardenRefresh | scripts/harden-jobs-v2.py:77-107 | the block injected into `job_refresh`: a non-dict job or an id outside the whitelist is left alone; an rc file wins; a read error only adds the note; without an rc file only a 'running' job changes, to 'running' or 'stale' by pid liveness |
| JobStatus.ApiJobEnrich | scripts/patch-api-job-rc-wins.py:55-77 | the block injected after `job = job_refresh(job)`: it raises out of its handler exactly when `job` is not a dict; the rc file wins; without it a live pid makes the job 'running' whatever its status, and a dead pid turns only 'running' into 'stale', leaving every other status and field as it was |
| JobStatus.RouteLiveness | scripts/patch-job-status-rc-wins.py:96-101 | the route-level liveness rule: a live integer pid gives 'running'; otherwise 'running' becomes 'stale' and any other status stays; only `status` may change |
| JobStatus.SnippetV1 | scripts/patch-job-status-rc-wins.py:81-107 | the snippet of the first route-level variant: nothing happens to a non-dict value; the rc branch writes `rc`, `status` and `done` but not `exit_code` |
| JobStatus.EnrichV2 | scripts/patch-job-status-rc-wins-v2.py:135-162 | the v2 replacement enriches `resp['job']` only when it is a dict, without touching `exit_code`; a read error is noted on `resp` |
| JobStatus.TargetOf | scripts/patch-job-status-rc-wins-v3.py:170-174 | v3 enriches `resp['job']` when it is a dict, else `resp` itself exactly when it is a dict holding both 'id' and 'status', else nothing |
| JobStatus.EnrichV3 | scripts/patch-job-status-rc-wins-v3.py:164-195 | the v3 replacement applies the rc branch (with `exit_code`) or the liveness rule to the chosen target; a read error is noted on `resp`; without a target nothing changes |
| JobStatus.OverrideRcValue | scripts/patch-os-search-and-job-rc.py:77-81 | `int(rc_txt or "1")` with any error read as 1: an empty (or blank) file counts as rc 1, a parsable one as its integer |
| JobStatus.RcOverride | scripts/patch-os-search-and-job-rc.py:68-88 | the override at the top of `job_refresh`: only a dict with a truthy `rc_path` whose file exists is changed; then `rc` is the file's code (1 on any error), status follows it, `pid_alive` is False, `pid` None and `updated_at` the current time; the record gains only those five keys and keeps every other field |
| JobStatus.RcValueOfCode | scripts/harden-jobs-v2.py:88-92 | the text `str(code)` of an exit code reads back as that code, in both the None-on-error and the 1-on-error parsings |
| JobStatus.ExitCodeRoundTrip | scripts/harden-jobs-v2.py:88-96 | a worker that writes `str(code)` to the rc file has exactly that code recorded as `rc` (and `exit_code`) by the variants, with 'success' exactly when it is 0 |
| JobStatus.UnparseableRcDisagrees | scripts/patch-os-search-and-job-rc.py:76-85 | for an rc file that `int()` rejects, `job_refresh` as hardened records rc None while the override records rc 1; both say 'failed' |
| JobStatus.EmptyRcIsNotAnExitCode | scripts/patch-os-search-and-job-rc.py:79 | an empty or blank rc file reads as None in the hardened `job_refresh` and as 1 in the override |
| JobStatus.RcWinsOverPid | scripts/patch-job-status-rc-wins-v3.py:175-191 | with an rc file present no variant consults the pid: the result does not depend on which pids are alive |
| JobStatus.LivePidRevivesOnlyInApiJob | scripts/patch-api-job-rc-wins.py:70-75 | without an rc file the hardened `job_refresh` leaves a 'failed' job alone, while the `api_job` block turns it back to 'running' when its pid is alive |
| JobStatus.ApplyRcTwice | scripts/harden-jobs-v2.py:93-96 | applying the rc branch twice gives what applying it once gives |
| JobStatus.ApplyRcKeepsId | scripts/harden-jobs-v2.py:83-84 | the rc branch leaves `id` and `job_id`, hence the derived job id, unchanged |
| JobStatus.HardenRefreshIdempotent | scripts/harden-jobs-v2.py:77-107 | refreshing a job a second time with the same rc file and the same live pids changes nothing |
| JobStatus.RouteLivenessIdempotent | scripts/patch-job-status-rc-wins-v2.py:153-158 | the route-level liveness rule applied twice is the rule applied once |
| PyValue.PyIntRoundTrip | scripts/harden-jobs-v2.py:88-90 | `int(str(i).strip()) == i` for every integer: the exit code a worker writes reads back unchanged |
| Lines.AnyInIffFound | scripts/harden-jobs-v2.py:66 | the scripts' `any(marker in l for l in block)` holds exactly when the forward search finds a line, and exactly when some line of the range passes |
| Lines.FindFirst | scripts/harden-jobs-v2.py:23-26 | the `for i, l in enumerate(lines): if ...: break` loop stops at the first passing line of the range, or at its end |
| Lines.FindLast | scripts/patch-job-status-rc-wins.py:62-68 | the backward `for k in range(len(block) - 1, -1, -1)` loop finds the last passing line of the range, or none |
| Lines.ScanBlockEnd | scripts/patch-job-status-rc-wins.py:45-55 | the block-end loop skips blank lines and stops at the first later line indented less than the def, or at the end of the file |
| Lines.TopLevelBlockRunsToEnd | scripts/patch-job-status-rc-wins.py:45-55 | for a def at column 0 no line is indented less, so the block of a top-level handler runs to the end of the file |
| Lines.RemoveRegionDeletes | scripts/harden-jobs-v2.py:149-161 | when the deletion happens it removes exactly one region: from the first start line up to, not including, the first later end line |
| Lines.FindBlockMeaning | scripts/harden-jobs-v2.py:38-54 | a block starts at the first start line and ends at the first later boundary line or at the end of the file; there is no block exactly when no line is a start line |
| Lines.InsertKeepsBlock | scripts/harden-jobs-v2.py:139-146 | inserting non-boundary lines strictly inside a block keeps its start and moves its end by the number of lines inserted |
| AppLines.FindRouteBlockScan | scripts/harden-jobs-v2.py:38-54 | `find_route_block`: the two loops give the first line that strips to `@app.get("<route>")` and the next line starting `@app.`, or the end of the file |
| AppLines.MarkerInserted | scripts/harden-jobs-v2.py:76-78 | an inserted body whose first line is `# <marker>...` puts the marker into the patched lines, which is what makes the next run see the patch as applied |
| AppLines.IndentedNoDecorator | scripts/harden-jobs-v2.py:132-139 | an indented body none of whose lines starts with '@' holds no `@app.` line, so inserting it does not move a route block's end |
| HardenJobs.FindDefBlockScan | scripts/harden-jobs-v2.py:20-36 | `find_def_block`: None without a `def name(` line; otherwise the first such line and the first later `@app.` or top-level def line (or the end of the file), the same block as the line-list definition FindBlock |
| HardenJobs.GuardedInsert | scripts/harden-jobs-v2.py:60-74 | a missing block or a missing anchor ends the script with the step's own exit code; a block already holding the marker is left exactly as it was |
| HardenJobs.GuardedInsertEdit | scripts/harden-jobs-v2.py:65-111 | when an insertion step changes the file, its block was found, no line of the block holds the marker, and the body went in at (step 1) or right after (step 2) the first anchor line inside the block |
| HardenJobs.GuardedInsertAt | scripts/harden-jobs-v2.py:109-110 | the inserted body lands strictly after the block's first line and no later than its end, with every other line kept in order |
| HardenJobs.MarkedInsertInBlock | scripts/harden-jobs-v2.py:109-110 | splicing a marked, indented body into a block grows the block by exactly the body's length and puts the marker inside it |
| HardenJobs.GuardedInsertFindsMarker | scripts/harden-jobs-v2.py:66 | a block that already holds the marker makes the step a no-op that reports no change |
| HardenJobs.GuardedInsertGuarded | scripts/harden-jobs-v2.py:65-111 | a guarded insertion that changed the file changes nothing when run again on its own output, and finds its block at the same line, longer by the body |
| HardenJobs.GrownBlockRerun | scripts/harden-jobs-v2.py:60-66 | after the insertion the block is found again, longer by the body, and holds the marker |
| HardenJobs.IndentedIsNoBoundary | scripts/harden-jobs-v2.py:31 | a line starting with four spaces is neither an `@app.` decorator nor a top-level def, so it never ends a block |
| HardenJobs.InsertIsNoBoundary | scripts/harden-jobs-v2.py:76-107 | no line of an indented injected body ends a function block or a route block |
| HardenJobs.DefIsNoReturn | scripts/harden-jobs-v2.py:69 | the `def name(` line that opens the block never matches the `    return job` anchor |
| HardenJobs.RefreshBodyMarked | scripts/harden-jobs-v2.py:78 | the injected rc-wins body carries JOB_STATUS_RC_WINS_JOB_REFRESH on its first line |
| HardenJobs.ValidateBodyMarked | scripts/harden-jobs-v2.py:134 | the injected job-id check carries JOB_ID_VALIDATE_API_JOB on its first line |
| HardenJobs.Step1Guarded | scripts/harden-jobs-v2.py:58-112 | step 1 is idempotent: once it has injected the rc-wins block before `return job`, a second run on its output changes nothing |
| HardenJobs.Step2Guarded | scripts/harden-jobs-v2.py:114-142 | step 2 is idempotent: once it has added the job-id check after `def api_job(`, a second run changes nothing |
| HardenJobs.Window | scripts/harden-jobs-v2.py:146-147 | bounds computed on earlier lines are clamped to the current lines as Python slicing clamps them, and bounds that still fit are kept |
| HardenJobs.Finish | scripts/harden-jobs-v2.py:144-171 | a failed step 2 ends with its exit code; the script exits 0 without writing only when no step changed the file |
| HardenJobs.FinishOn | scripts/harden-jobs-v2.py:165-171 | the corrected ending writes the file whenever a step changed it and exits 0 only otherwise |
| HardenJobs.FinishFixed | scripts/harden-jobs-v2.py:144-171 | the corrected step 3 keeps the exit codes of steps 1 and 2 and exits 0 without writing only when nothing changed |
| HardenFinding.StaleWindowKeepsRegion | scripts/harden-jobs-v2.py:146-160 | when the old block's start lies in the stale window and its end after it, step 3 removes nothing |
| HardenFinding.GrownWindowLosesRegion | scripts/harden-jobs-v2.py:148-161 | on the grown route block the same old block is deleted, from its marker up to its closing line |
| HardenFinding.FinishKeepsOldBlock | scripts/harden-jobs-v2.py:144-171 | as written, the run in which step 2 grew the route block writes the lines with the old block still in place |
| HardenFinding.EndsLateInsideGrown | scripts/harden-jobs-v2.py:139-140 | an old block ending in the last |validate| lines lies wholly inside the route block grown by step 2 |
| HardenFinding.FinishOnRemovesOldBlock | scripts/harden-jobs-v2.py:144-171 | corrected: step 3 on a route block searched again after step 2 removes an old block lying inside it |
| HardenFinding.HardenKeepsOldBlock | scripts/harden-jobs-v2.py:116-161 | the whole script as written: the old rc-wins block lies inside the `/api/job/<job_id>` handler, yet the run that inserts the job-id check writes it back unremoved |
| HardenFinding.HardenFixedRemovesOldBlock | scripts/harden-jobs-v2.py:144-163 | the whole corrected script removes every old block lying inside the handler when job_refresh holds the rc-wins marker |
| ApiJobRcWins.PatchExits | scripts/patch-api-job-rc-wins.py:14-50 | exit 2 exactly when the `@app.get("/api/job/<job_id>")` decorator is missing; exit 0 only when a line of the handler block holds JOB_STATUS_RC_WINS_API_JOB; exit 3 only when no line of the block is `job = job_refresh(job)`; no other exit code |
| ApiJobRcWins.InsertAfterAnchorEdit | scripts/patch-api-job-rc-wins.py:37-80 | a write on a block means no line of it is marked and the body, indented like the block's first anchor, went in right after that anchor, with every other line in its place and order |
| ApiJobRcWins.PatchInserts | scripts/patch-api-job-rc-wins.py:14-80 | a write means the handler block was found, holds no marker, and the rc-wins block went in right after its first `job = job_refresh(job)` line with that line's indentation |
| ApiJobRcWins.IndentIsSpace | scripts/patch-api-job-rc-wins.py:53 | the indentation copied from the anchor line is empty or starts with whitespace |
| ApiJobRcWins.IndentedKeepsBlock | scripts/patch-api-job-rc-wins.py:27-33 | whitespace-indented lines inserted inside the handler block never start with `@app.`, so the block grows by exactly their number |
| ApiJobRcWins.InsertAfterAnchorGuarded | scripts/patch-api-job-rc-wins.py:37-40 | after a write the block starts at the same line, is longer by the body and holds the marker, so running the block step again exits 0 |
| ApiJobRcWins.PatchIdempotent | scripts/patch-api-job-rc-wins.py:37-40 | for any body that starts with its marker comment and has no line starting with '@', a second run after a write exits 0 without writing |
| ApiJobRcWins.BodyMarked | scripts/patch-api-job-rc-wins.py:56 | the injected block's first line carries JOB_STATUS_RC_WINS_API_JOB |
| ApiJobRcWins.BodyNoAtSign | scripts/patch-api-job-rc-wins.py:55-77 | no injected line starts with '@' |
| ApiJobRcWins.PatchTwice | scripts/patch-api-job-rc-wins.py:37-80 | the script as written is idempotent: run on its own output it exits 0 |
| ApiJobRcWins.InsertAfterAnchorRun | scripts/patch-api-job-rc-wins.py:37-53 | the marker scan and the anchor scan over the block decide exactly as InsertAfterAnchor |
| ApiJobRcWins.PatchRun | scripts/patch-api-job-rc-wins.py:14-80 | the decorator scan, the block-end scan and the block scans give exactly the outcome PatchWith specifies |
| JobStatusRcWins.LocateWith | scripts/patch-job-status-rc-wins.py:23-77 | exit 3 exactly when no line is a `/api/job/<` decorator; otherwise a target names the first decorator, the first def among the next 39 lines, the end of its indentation block, the last `return jsonify(...)` line of the block, and the first argument, which is an identifier; every other failure is 4, 5 or 6 |
| JobStatusRcWins.SnippetMarked | scripts/patch-job-status-rc-wins.py:82 | the snippet's first line carries JOB_STATUS_RC_WINS |
| JobStatusRcWins.PatchInserts | scripts/patch-job-status-rc-wins.py:12-110 | a write means the file has neither the marker nor an unimported `Path(` use, the searches found their lines, and the snippet for the returned variable, indented like the return line and followed by a blank line, went in right before that return line |
| JobStatusRcWins.PatchRerun | scripts/patch-job-status-rc-wins.py:12-19 | the written file holds the marker, so a second run exits 0, or exits 2 when its `Path(` guard fires first; with `from pathlib import Path` present it exits 0 |
| JobStatusRcWins.LongerMarkerStops | scripts/patch-job-status-rc-wins.py:16-19 | any marker that extends JOB_STATUS_RC_WINS (the api-job and harden markers do) stops this script with exit 0, unless the `Path(` guard fires first |
| JobStatusRcWins.PatchRun | scripts/patch-job-status-rc-wins.py:23-110 | the decorator scan, the bounded def scan, the block-end loop and the backward return scan give exactly the outcome PatchWith specifies |
| JobStatusRcWins.LocateRun | scripts/patch-job-status-rc-wins.py:23-77 | the searches' loops find exactly the target LocateWith specifies |
| JobStatusRcWinsV2.SpacedAlternativeNeverHolds | scripts/patch-job-status-rc-wins-v2.py:59 | once the spaces are removed a line can no longer hold "return jsonify", so only the "returnjsonify" alternative of the return test can ever hold |
| JobStatusRcWinsV2.OpenEnd | scripts/patch-job-status-rc-wins-v2.py:82 | where `jsonify\s*\(` first matches, the position returned lies just after a '(' of the line |
| JobStatusRcWinsV2.OpenEndFound | scripts/patch-job-status-rc-wins-v2.py:82-83 | the search for `jsonify(` fails exactly when the line holds no match of the pattern |
| JobStatusRcWinsV2.OpenEndHere | scripts/patch-job-status-rc-wins-v2.py:86 | a match of `jsonify\s*\(` ends just after a '(' inside the line, so `s[m.end()-1:]` starts at that parenthesis |
| JobStatusRcWinsV2.CaptureEnd | scripts/patch-job-status-rc-wins-v2.py:75-93 | `ret_end` is the first line from the return line on after which the parenthesis count has started and dropped to zero or below, and None when no such line exists |
| JobStatusRcWinsV2.CaptureStep | scripts/patch-job-status-rc-wins-v2.py:81-93 | one pass of the capture loop yields the count of the lines seen so far; the loop stops at a line exactly when the count is balanced there, and otherwise the answer is that of the next line |
| JobStatusRcWinsV2.OpenParts | scripts/patch-job-status-rc-wins-v2.py:82 | a match of `jsonify\s*\(` is the word, a whitespace run and '(' |
| JobStatusRcWinsV2.OpenFromParts | scripts/patch-job-status-rc-wins-v2.py:103 | the word, a whitespace run and '(' at a position make the pattern match there |
| JobStatusRcWinsV2.OpenShift | scripts/patch-job-status-rc-wins-v2.py:78 | a `jsonify(` inside a line is still one once other text is put before and after the line |
| JobStatusRcWinsV2.OpenWitness | scripts/patch-job-status-rc-wins-v2.py:82 | where the search for `jsonify(` succeeds, the word, the run and '(' are at its position |
| JobStatusRcWinsV2.FoundFromOpen | scripts/patch-job-status-rc-wins-v2.py:103 | any position holding the word, a run and '(' makes the search succeed |
| JobStatusRcWinsV2.OpenInJoin | scripts/patch-job-status-rc-wins-v2.py:78 | `jsonify(` in one captured line is `jsonify(` in the concatenated call text |
| JobStatusRcWinsV2.LineOpenInCall | scripts/patch-job-status-rc-wins-v2.py:75-83 | a line of the captured call that holds `jsonify(` makes the search of the whole call text succeed |
| JobStatusRcWinsV2.CapturedCallHasOpen | scripts/patch-job-status-rc-wins-v2.py:81-106 | the capture only stops after a line where `jsonify(` was found, so the search of the call text always succeeds |
| JobStatusRcWinsV2.StartedCallHasOpen | scripts/patch-job-status-rc-wins-v2.py:81-106 | a call whose capture has started holds `jsonify(` on one of its lines, so the search of its text succeeds |
| JobStatusRcWinsV2.CallCutNeverMissesOpen | scripts/patch-job-status-rc-wins-v2.py:103-106 | exit 6 ("could not locate jsonify( in captured return") can never happen for any call analysed |
| JobStatusRcWinsV2.LocateNeverMissesOpen | scripts/patch-job-status-rc-wins-v2.py:103-106 | no input file makes the script exit 6 |
| JobStatusRcWinsV2.LevelStep | scripts/patch-job-status-rc-wins-v2.py:112-118 | the nesting level after one more character goes up by one for '(', down by one for ')', and is unchanged otherwise |
| JobStatusRcWinsV2.CloseFrom | scripts/patch-job-status-rc-wins-v2.py:110-122 | the matching-parenthesis scan stops after the opening position, within the text, or reports that the level never returns to 0 |
| JobStatusRcWinsV2.CallInner | scripts/patch-job-status-rc-wins-v2.py:103-122 | the scan reports a missing `jsonify(` exactly when the call text holds none |
| JobStatusRcWinsV2.InnerFrom | scripts/patch-job-status-rc-wins-v2.py:108-122 | once `jsonify(` is found the outcome is the inner text or an unbalanced call, never a missing opening |
| JobStatusRcWinsV2.OpenParen | scripts/patch-job-status-rc-wins-v2.py:108 | `start_pos` lies just after a '(' of the call text |
| JobStatusRcWinsV2.CallInnerIs | scripts/patch-job-status-rc-wins-v2.py:124 | with the opening at `start` and the level back to 0 at `q`, the text found is `call_text[start:q-1]` |
| JobStatusRcWinsV2.CallInnerMeaning | scripts/patch-job-status-rc-wins-v2.py:103-124 | the text found lies between the first `jsonify(` parenthesis and the ')' that matches it: the level stays positive in between |
| JobStatusRcWinsV2.StrippedDictTest | scripts/patch-job-status-rc-wins-v2.py:124-127 | stripping the argument again before testing for '{' and '}' changes nothing |
| JobStatusRcWinsV2.Accept | scripts/patch-job-status-rc-wins-v2.py:124-132 | the stripped argument is kept only when it is a dict literal or a single identifier, and otherwise the exit is 8 |
| JobStatusRcWinsV2.ArgumentOf | scripts/patch-job-status-rc-wins-v2.py:103-132 | the argument step exits 6 exactly when the call text holds no `jsonify(`, may exit 7 or 8, and otherwise yields an accepted argument |
| JobStatusRcWinsV2.CallCut | scripts/patch-job-status-rc-wins-v2.py:68-132 | the call analysis fails only with exits 5 to 8; otherwise the call runs from the return line to a later line inside the block |
| JobStatusRcWinsV2.LocateWith | scripts/patch-job-status-rc-wins-v2.py:19-132 | a located call lies inside the handler's block: def line, then first and last line of the call, then the block end |
| JobStatusRcWinsV2.LocateExits | scripts/patch-job-status-rc-wins-v2.py:19-132 | the searches exit with a code from 2 to 8, and with 2 exactly when no line is an `/api/job/<` decorator |
| JobStatusRcWinsV2.LocateLines | scripts/patch-job-status-rc-wins-v2.py:19-62 | the def line lies within 49 lines of the first decorator with no def between them; the block ends where the indentation rule says; the call starts on the block's last return-jsonify line |
| JobStatusRcWinsV2.CallCutMeaning | scripts/patch-job-status-rc-wins-v2.py:68-132 | the call's last line is the first where its parentheses balance, and the argument is the accepted text inside the matching parentheses of the call text |
| JobStatusRcWinsV2.Rewrite | scripts/patch-job-status-rc-wins-v2.py:164-165 | the lines from the call's first to its last are replaced by the replacement, and every line before and after keeps its place and order |
| JobStatusRcWinsV2.ReplacementShape | scripts/patch-job-status-rc-wins-v2.py:137-162 | the replacement is the marker line, `resp = <argument>`, the enrichment, then `return jsonify(resp)`, each indented like the original return line |
| JobStatusRcWinsV2.PatchReplaces | scripts/patch-job-status-rc-wins-v2.py:11-170 | a write means the marker was absent, the searches found the call, and the file is the call replaced as Rewrite states |
| JobStatusRcWinsV2.PatchRerun | scripts/patch-job-status-rc-wins-v2.py:12-15 | a second run finds JOB_STATUS_RC_WINS_V2 in the written file and exits 0 |
| JobStatusRcWinsV2.CountLineRun | scripts/patch-job-status-rc-wins-v2.py:81-89 | one line of the capture loop updates `started` and `paren` as the line count function says |
| JobStatusRcWinsV2.CaptureRun | scripts/patch-job-status-rc-wins-v2.py:75-97 | the capture loop stops exactly at CaptureEnd |
| JobStatusRcWinsV2.CloseRun | scripts/patch-job-status-rc-wins-v2.py:110-122 | the character loop stops exactly where CloseFrom says |
| JobStatusRcWinsV2.InnerFromRun | scripts/patch-job-status-rc-wins-v2.py:108-124 | the scan from the opening gives the outcome InnerFrom specifies |
| JobStatusRcWinsV2.CallInnerRun | scripts/patch-job-status-rc-wins-v2.py:103-124 | the search for `jsonify(` and the scan give the outcome CallInner specifies |
| JobStatusRcWinsV2.ArgumentRun | scripts/patch-job-status-rc-wins-v2.py:103-132 | the argument step gives the outcome ArgumentOf specifies |
| JobStatusRcWinsV2.CallCutRun | scripts/patch-job-status-rc-wins-v2.py:68-132 | the capture loop and the argument step give the outcome CallCut specifies |
| JobStatusRcWinsV2.LocateRun | scripts/patch-job-status-rc-wins-v2.py:19-132 | the script's loops find exactly what LocateWith specifies |
| JobStatusRcWinsV2.PatchRun | scripts/patch-job-status-rc-wins-v2.py:11-165 | the whole script's loops give exactly the outcome PatchWith specifies |
| JobStatusRcWinsV3.QuotedPathAt | scripts/patch-job-status-rc-wins-v3.py:19-21 | a match of `['"](/api/[^'"]+)['"]` at a position runs from a quote over `/api/` and at least one non-quote character to the next quote, with no quote in between |
| JobStatusRcWinsV3.PathsFrom | scripts/patch-job-status-rc-wins-v3.py:19-21 | every path `re.findall` returns starts with `/api/`, is longer than it, and holds no quote |
| JobStatusRcWinsV3.QuotedPathHere | scripts/patch-job-status-rc-wins-v3.py:21 | a quoted `/api/...` literal at a position is matched up to its closing quote |
| JobStatusRcWinsV3.SoleQuotedPathAt | scripts/patch-job-status-rc-wins-v3.py:21 | a line holding a single quoted `/api/...` literal yields exactly that path |
| JobStatusRcWinsV3.SoleQuotedPath | scripts/patch-job-status-rc-wins-v3.py:21 | the same for a line written as text, a quote, the path, a quote and text without quotes |
| JobStatusRcWinsV3.SubRouteNotBase | scripts/patch-job-status-rc-wins-v3.py:23-30 | `/tail`, `/cancel` or any other sub-route of a base job route is never a base job route |
| JobStatusRcWinsV3.BaseRouteIsApiPath | scripts/patch-job-status-rc-wins-v3.py:25 | a base job route starts with `/api/` and is longer than it |
| JobStatusRcWinsV3.RoutePath | scripts/patch-job-status-rc-wins-v3.py:37-41 | the route taken from a line is a base job route among the line's quoted paths |
| JobStatusRcWinsV3.RouteOf | scripts/patch-job-status-rc-wins-v3.py:34-43 | a line gives a route exactly when it is an '@' line with a base job route among its paths, and the route given is a base job route |
| JobStatusRcWinsV3.SolePathRoute | scripts/patch-job-status-rc-wins-v3.py:34-41 | an '@' line whose only quoted path is a base job route is picked with that route |
| JobStatusRcWinsV3.AtLineExtended | scripts/patch-job-status-rc-wins-v3.py:35 | text after the start of an '@' line keeps it an '@' line |
| JobStatusRcWinsV3.DecoratorRoute | scripts/patch-job-status-rc-wins-v3.py:32-43 | `@app.get("/api/job/<job_id>")` and any decorator written as an '@' prefix, one quoted base route and text without quotes select that route |
| JobStatusRcWinsV3.SigGroup | scripts/patch-job-status-rc-wins-v3.py:70 | the parameter group of the signature regex, when it matches, is non-empty and holds no ')' |
| JobStatusRcWinsV3.Params | scripts/patch-job-status-rc-wins-v3.py:75 | the stripped parameters keep at most as many items as the comma split and drop the empty ones |
| JobStatusRcWinsV3.ParamOf | scripts/patch-job-status-rc-wins-v3.py:69-87 | reading the handler's first parameter fails only with exits 4 to 6, and otherwise yields an identifier |
| JobStatusRcWinsV3.IdentifierStripped | scripts/patch-job-status-rc-wins-v3.py:82 | an identifier strips to itself |
| JobStatusRcWinsV3.ParamNameDropsAnnotation | scripts/patch-job-status-rc-wins-v3.py:82 | a type hint (`job_id: str`) or a default (`job_id='x'`) after the name is dropped |
| JobStatusRcWinsV3.CallAfter | scripts/patch-job-status-rc-wins-v3.py:132-158 | after the capture loop the call analysis fails only with exits 8 to 10, and a call found ends on the line where the loop stopped |
| JobStatusRcWinsV3.CallOf | scripts/patch-job-status-rc-wins-v3.py:113-158 | the analysis of the return call fails only with exits 8 to 10, and a call found ends inside the block at or below the return line |
| JobStatusRcWinsV3.CallOfNeverMissesOpen | scripts/patch-job-status-rc-wins-v3.py:139-142 | exit 9 ("jsonify( not found in captured return") can never happen |
| JobStatusRcWinsV3.CallMeaning | scripts/patch-job-status-rc-wins-v3.py:113-158 | a call found ends on the first line where the capture count balances, and its argument is the stripped text between the first `jsonify(` of the call text and its matching ')' |
| JobStatusRcWinsV3.DefSite | scripts/patch-job-status-rc-wins-v3.py:89-158 | from the def line on, the analysis fails only with exits 7 to 10; a site found keeps the route, path, def line and parameter and lies inside the block |
| JobStatusRcWinsV3.DefSiteNeverMissesOpen | scripts/patch-job-status-rc-wins-v3.py:139-142 | the block stage never exits 9 |
| JobStatusRcWinsV3.LocateWith | scripts/patch-job-status-rc-wins-v3.py:32-158 | a site found is ordered route line, def line, call lines, block end |
| JobStatusRcWinsV3.LocateWithExits | scripts/patch-job-status-rc-wins-v3.py:32-158 | for any parameter reading that fails with 4 to 6, the exits are 2 to 10, never 9, and 2 exactly when no line has a route |
| JobStatusRcWinsV3.LocateExits | scripts/patch-job-status-rc-wins-v3.py:32-158 | the script's searches exit 2 to 10 but never 9, and 2 exactly when no '@' line carries a base job route |
| JobStatusRcWinsV3.LocateWithLines | scripts/patch-job-status-rc-wins-v3.py:32-134 | the site names the first line with a route, the first def within 59 lines with its parameter, the indentation block end, the block's last return-jsonify line, and the call captured from there |
| JobStatusRcWinsV3.LocateRoute | scripts/patch-job-status-rc-wins-v3.py:32-87 | the route is the first base job route of the first '@' line that has one, and the parameter is an identifier |
| JobStatusRcWinsV3.Rewrite | scripts/patch-job-status-rc-wins-v3.py:197-198 | the block-relative splice of the script equals replacing the call's lines in the file, with every other line in its place and order |
| JobStatusRcWinsV3.ReplacementShape | scripts/patch-job-status-rc-wins-v3.py:164-195 | the replacement is a marker line naming the route, `resp = <argument>`, the enrichment, then `return jsonify(resp)`, each indented like the return line |
| JobStatusRcWinsV3.PatchReplaces | scripts/patch-job-status-rc-wins-v3.py:11-198 | a write means the marker was absent, the searches found the call, and the call's lines were replaced by the replacement for its route, argument and parameter |
| JobStatusRcWinsV3.PatchRerun | scripts/patch-job-status-rc-wins-v3.py:12-15 | the written file holds JOB_STATUS_RC_WINS_V3, so a second run exits 0 |
| JobStatusRcWinsV3.MarkedStopsFirstVersion | scripts/patch-job-status-rc-wins.py:16-19 | a file holding the v3 marker also holds the first version's marker, so the first version stops with exit 0, unless its `Path(` guard fires first |
| JobStatusRcWinsV3.FirstVersionStopsAfter | scripts/patch-job-status-rc-wins.py:12-19 | the first version of the script, run after this one has written, stops with exit 0 or 2 |
| JobStatusRcWinsV3.FindRoute | scripts/patch-job-status-rc-wins-v3.py:32-43 | the decorator loop stops at the first line with a route and returns that route |
| JobStatusRcWinsV3.LocateFrom | scripts/patch-job-status-rc-wins-v3.py:32-158 | the searches' loops find exactly the site LocateWith specifies |
| JobStatusRcWinsV3.LocateRun | scripts/patch-job-status-rc-wins-v3.py:32-158 | for the script's own line tests, the loops find exactly the site Locate specifies |
| JobStatusRcWinsV3.DefSiteRun | scripts/patch-job-status-rc-wins-v3.py:89-158 | the block-end, return and call loops find exactly the site DefSite specifies |
| JobStatusRcWinsV3.CallRun | scripts/patch-job-status-rc-wins-v3.py:113-158 | the capture loop, the `jsonify(` search and the level scan give exactly the outcome CallOf specifies |
| JobStatusRcWinsV3.PatchRun | scripts/patch-job-status-rc-wins-v3.py:11-198 | the whole script's loops give exactly the outcome PatchWith specifies |
| CatalogSearch.Alias | scripts/patch-os-search-and-job-rc.py:31-35 | "raspi" and "rpi" become "raspberry"; every other query is kept as it is |
| CatalogSearch.AliasIdempotent | scripts/patch-os-search-and-job-rc.py:31-35 | rewriting an aliased query again changes nothing |
| CatalogSearch.TermsMeaning | scripts/patch-os-search-and-job-rc.py:36 | the terms of `re.split(r"\s+", q2)` without the empty ones are non-empty, hold no whitespace, and together hold every non-space character of the query in order |
| CatalogSearch.DevicesText | scripts/patch-os-search-and-job-rc.py:43 | `" ".join(devices or [])` gives "" for a falsy value and, for a list, succeeds exactly when every item is a string |
| CatalogSearch.StrItems | scripts/patch-os-search-and-job-rc.py:43 | the texts of a list of strings, one per item, in order |
| CatalogSearch.CharItems | scripts/patch-os-search-and-job-rc.py:43 | a string joined as a sequence is its characters, one string each |
| CatalogSearch.Hay | scripts/patch-os-search-and-job-rc.py:38-45 | the haystack can be built exactly when the item is a dict whose devices can be joined |
| CatalogSearch.Match | scripts/patch-os-search-and-job-rc.py:47-49 | the match raises exactly when the haystack does, and is true exactly when every term occurs in the haystack |
| CatalogSearch.FilterWithRaises | scripts/patch-os-search-and-job-rc.py:51 | the list comprehension raises exactly when the test of some item raises |
| CatalogSearch.FilterWithKeeps | scripts/patch-os-search-and-job-rc.py:51 | the comprehension keeps only items of the list that pass, and every item that passes |
| CatalogSearch.FilterWithAppend | scripts/patch-os-search-and-job-rc.py:51 | filtering a concatenation is concatenating the filtered parts, so the catalog's order is kept |
| CatalogSearch.FilterWithIdempotent | scripts/patch-os-search-and-job-rc.py:51 | filtering a filtered list again changes nothing |
| CatalogSearch.FilterWithAll | scripts/patch-os-search-and-job-rc.py:51 | a test that passes every item keeps the whole list |
| CatalogSearch.FilterRaises | scripts/patch-os-search-and-job-rc.py:38-51 | the search raises exactly when some catalog item has no haystack |
| CatalogSearch.FilterKeeps | scripts/patch-os-search-and-job-rc.py:47-51 | the search keeps exactly the items in which every term occurs |
| CatalogSearch.NoTermsKeepsAll | scripts/patch-os-search-and-job-rc.py:36-51 | an empty or blank query keeps the whole catalog |
| CatalogSearch.UpperCaseTermMatchesNothing | scripts/patch-os-search-and-job-rc.py:45-49 | the haystack is lowercased but the terms are not, so a term with an upper-case letter matches nothing |
| CatalogSearch.AliasSearch | scripts/patch-os-search-and-job-rc.py:31-51 | searching "rpi" or "raspi" gives exactly the result of searching "raspberry" |
| CatalogSearch.PatchExits | scripts/patch-os-search-and-job-rc.py:20-90 | the script dies with status 1 exactly when the search marker and the filter line are both missing, or the override marker and the `def job_refresh(...):` line are both missing |
| CatalogSearch.ReplaceAllInserts | scripts/patch-os-search-and-job-rc.py:53 | `txt.replace(needle, replacement)` on a text holding the needle leaves the replacement in the text |
| CatalogSearch.InsertAtLineEndKeeps | scripts/patch-os-search-and-job-rc.py:89 | inserting the override at a line end keeps every one-line text the file held |
| CatalogSearch.SearchStepMarks | scripts/patch-os-search-and-job-rc.py:20-54 | after patch 1 the text holds `# JR_SEARCH_V2` |
| CatalogSearch.OverrideStepMarks | scripts/patch-os-search-and-job-rc.py:59-90 | after patch 2 the text holds `# JR_JOB_RC_OVERRIDE` and still holds the search marker |
| CatalogSearch.PatchRerun | scripts/patch-os-search-and-job-rc.py:20-93 | run on its own output the script writes that output back unchanged |
| CatalogSearch.PatchIsMarked | scripts/patch-os-search-and-job-rc.py:28-69 | both injected texts hold their markers |
| Devices.Basename | scripts/patch-add-devices-endpoint-v1.py:54 | `os.path.basename` gives the part after the last '/': a suffix of the path holding no '/', preceded by '/' when shorter than the path |
| Devices.FallbackParent | scripts/patch-add-devices-endpoint-v1.py:53-60 | an nvme or mmcblk name holding a 'p' keeps the prefix before its first 'p'; any other name loses exactly its trailing digits |
| Devices.RootParentFallback | scripts/patch-add-devices-endpoint-v1.py:47-60 | when `lsblk -no PKNAME` prints nothing, the root parent is the fallback of the base name; removing "/dev/" from a base name changes nothing |
| Devices.FallbackKeepsMode | scripts/patch-add-devices-endpoint-v1.py:53-66 | the fallback never changes the boot mode (SD, NVME or UNKNOWN) a device name implies |
| Devices.OwnMountpoints | scripts/patch-add-devices-endpoint-v1.py:81-85 | every mount point taken from the node itself is truthy |
| Devices.KeepTruthy | scripts/patch-add-devices-endpoint-v1.py:83 | `[x for x in mp if x]` keeps exactly the truthy entries |
| Devices.Mountpoints | scripts/patch-add-devices-endpoint-v1.py:79-88 | `collect_mountpoints` raises exactly on a value that is not a tree of dicts with list children, and every point it collects is truthy |
| Devices.ChildMountpoints | scripts/patch-add-devices-endpoint-v1.py:86-87 | the children's loop raises exactly when some child is not a tree, and collects only truthy points |
| Devices.AllowedIffNoReasons | scripts/patch-add-devices-endpoint-v1.py:101-124 | a disk is an allowed Option A target exactly when `why_not` is empty |
| Devices.PlaceRules | scripts/patch-add-devices-endpoint-v1.py:101-109 | the first two rules allow only a disk that is not the root parent and has no mount points, with "is_root_parent" and "mounted" as the reasons, in that order |
| Devices.ModeRule | scripts/patch-add-devices-endpoint-v1.py:111-124 | SD mode allows only nvme targets, NVME mode only mmcblk or usb targets, and an unknown mode nothing, each with its own reason appended |
| Devices.Judge | scripts/patch-add-devices-endpoint-v1.py:101-124 | the rules run in order give the allowed flag and the reasons of the rule definitions |
| Devices.ClassifyOne | scripts/patch-add-devices-endpoint-v1.py:91-138 | one pass of the loop skips non-disks and ram, zram and loop devices, and otherwise yields the row RowOf specifies |
| Devices.ClassifyDisks | scripts/patch-add-devices-endpoint-v1.py:90-138 | the loop builds exactly the list DisksOut specifies |
| Devices.DisksOutRaises | scripts/patch-add-devices-endpoint-v1.py:90-98 | once one entry raises, the whole loop raises |
| Devices.KeptRow | scripts/patch-add-devices-endpoint-v1.py:91-138 | a kept row comes from a dict of type "disk", carries its name, and its flags follow the rules |
| Devices.DisksOutEntries | scripts/patch-add-devices-endpoint-v1.py:90-138 | every output entry follows the rules and comes from an lsblk entry of type "disk" |
| Devices.DisksOutAppend | scripts/patch-add-devices-endpoint-v1.py:90-138 | the output keeps the order of the lsblk listing |
| Devices.NothingAllowedWhen | scripts/patch-add-devices-endpoint-v1.py:101-124 | with the mode unknown nothing is allowed, and the root-parent disk and a mounted disk never are |
| Devices.NoListingNoDisks | scripts/patch-add-devices-endpoint-v1.py:68-77 | without a usable lsblk listing the snapshot does not raise and has no disks |
| Devices.NoRootNoTargets | scripts/patch-add-devices-endpoint-v1.py:44-66 | without a root source the mode is unknown, so no disk is allowed and "mode_unknown" is the last reason |
| Devices.PatchInserts | scripts/patch-add-devices-endpoint-v1.py:8-155 | a write means the marker was absent and puts the endpoint right before the first `@app.` line after the `/api/health` decorator, with every other line kept |
| Devices.PatchRerun | scripts/patch-add-devices-endpoint-v1.py:8-10 | a second run finds API_DEVICES_V1 and exits 0 |
| Devices.HeadHasMarker | scripts/patch-add-devices-endpoint-v1.py:35 | the inserted endpoint carries API_DEVICES_V1 |
| Devices.PatchRun | scripts/patch-add-devices-endpoint-v1.py:14-155 | the decorator scan and the next-decorator scan give exactly the outcome PatchWith specifies |
| AppDisks.StripPartitionAsWritten | app/app.py:34-36 | the fallback as written, `rstrip` of digits then `rstrip("p")`, gives a prefix of the name ending in neither a digit nor 'p', or in a digit that a stripped 'p' followed |
| AppDisks.StripPartition | app/app.py:35-36 | the corrected fallback gives a prefix of the device name |
| AppDisks.StripDigitsOf | app/app.py:36 | digits appended to a name that does not end in a digit are exactly what the digit strip removes |
| AppDisks.StripPartitionNamings | app/app.py:27 | the corrected fallback maps `<disk><n>` (a disk name ending in a letter) and `<disk>p<n>` (one ending in a digit: `mmcblk0p2`, `nvme0n1p2`) back to the disk |
| AppDisks.StripPartitionAsWrittenLosesP | app/app.py:36 | as written, a partition of a disk whose name ends in 'p' after a letter loses more than the partition number and never comes back as its disk, while the corrected fallback does |
| AppDisks.SdpExample | app/app.py:36 | `/dev/sdp1` with lsblk failing gives "sd" as written, and "sdp" corrected |
| AppDisks.ParentDisk | app/app.py:26-36 | `parent_disk`: "" when nothing is left once "/dev/" is removed; the stripped PKNAME output when lsblk succeeds; otherwise a prefix of the device name (the fallback as written) |
| AppDisks.ParentDiskFixed | app/app.py:26-36 | corrected: the same three cases, with the fallback that strips only a 'p' after a digit |
| AppDisks.ParentDiskLosesP | app/app.py:26-36 | with lsblk failing, a partition of a disk whose name ends in 'p' after a letter (`/dev/sdp1`) is not taken to belong to its disk as written, and is with the corrected fallback |
| AppDisks.DevPrefixRemoved | app/app.py:28 | "/dev/" is removed wherever it stands, so `/dev/mmcblk0p2` becomes `mmcblk0p2` |
| AppDisks.AnnotateAllMeaning | app/app.py:54-57 | the loop raises exactly when some entry is not a dict; otherwise every entry keeps its place, and each "disk" entry gains `is_root_disk`, true exactly when its name is the root parent, and keeps every other key |
| AppDisks.AnnotateMeaning | app/app.py:56-57 | one entry: a non-disk is left as it is; a disk gains `is_root_disk` and keeps every other key and value |
| AppDisks.AnnotateAllRaises | app/app.py:54-57 | once one entry raises, the whole annotation raises |
| AppDisks.AnnotateInPlace | app/app.py:54-57 | the in-place loop over the array succeeds exactly when the annotation does, and leaves the array holding the annotated entries |
| AppDisks.DisksMeaning | app/app.py:46-62 | the reply carries the root source, its parent disk, and the lsblk object with the same keys, every key other than `blockdevices` unchanged and the top-level entries annotated |
| DownloadOsJobId.RewriteShape | scripts/patch-api-download-os-jobid.py:8-35 | without a match the script aborts; with one the text before the match and the start_job line stay as they were, each new line carries group 2's leading whitespace, and the text after the match is kept |
| DownloadOsJobId.IndentedLines | scripts/patch-api-download-os-jobid.py:20-29 | each replacement line starts with the indent and ends with its body line |
| DownloadOsJobId.FirstTruthyMeaning | scripts/patch-api-download-os-jobid.py:25 | an `or` chain gives its first truthy value, or its last value when none is truthy |
| DownloadOsJobId.NormalizedJobIdMeaning | scripts/patch-api-download-os-jobid.py:23-27 | for a dict the id is the first truthy of job_id, id, job and jid; otherwise it is `str(job)`, and None only for None |
| DownloadOsJobId.Reply | scripts/patch-api-download-os-jobid.py:28 | the reply has status 202 and exactly the keys ok (True), cached (False), job_id (the normalised id), job and paths |
| DownloadOsJobId.NormalizedAgreesWithReturned | scripts/patch-api-download-os-jobid.py:7-28 | the normalised id equals the id the replaced lines returned, for a string job and for a dict whose job_id is truthy |
| DownloadOsJobId.NormalizedFindsId | scripts/patch-api-download-os-jobid.py:25 | for a dict with a falsy job_id and a truthy id the replaced lines returned the falsy job_id; the normalisation returns the id |
| DownloadOsReturn.Added | scripts/patch-api-download-os-return.py:18-21 | three lines are added: a blank line, then the job_id line and the return line, both with the needle line's indentation |
| DownloadOsReturn.CopyPatched | scripts/patch-api-download-os-return.py:13-22 | the copy loop reproduces the lines and, only after the first line holding the needle, adds the three lines; when no line holds it, the copy is unchanged |
| DownloadOsReturn.PatchMeaning | scripts/patch-api-download-os-return.py:8-27 | exit 0 exactly when a line already returns `cached": False` with a job id; the abort exactly when no line does and none holds the needle; otherwise the three lines go right after the first needle line, with every other line kept |
| DownloadOsReturn.AddedIndented | scripts/patch-api-download-os-return.py:18 | the copied indentation is whitespace only and starts each added code line |
| DownloadOsReturn.ReturnLineHasCached | scripts/patch-api-download-os-return.py:21 | the added return line holds `cached": False` |
| DownloadOsReturn.ReturnLineHasJobId | scripts/patch-api-download-os-return.py:21 | the added return line holds "job_id" |
| DownloadOsReturn.ReturnLineNoSlash | scripts/patch-api-download-os-return.py:21 | the added return line holds no '/', so not "/api/download_os" |
| DownloadOsReturn.ReturnLineIsAlready | scripts/patch-api-download-os-return.py:9 | the added return line passes the already-patched test |
| DownloadOsReturn.PatchRerun | scripts/patch-api-download-os-return.py:8-11 | a second run finds its own return line and exits 0 |
| DownloadOsReturn.ReturnedJobId | scripts/patch-api-download-os-return.py:20 | the added lines return `job.get("job_id")` for a dict job and the job itself otherwise |
| DownloadOsReturn.PatchRun | scripts/patch-api-download-os-return.py:8-27 | the already-patched scan and the copy loop give exactly the outcome Patch specifies |
| QueryAlias.OneSpace | scripts/patch-os-query-alias.py:10 | one space before a non-space character is a `\s+` run of length one |
| QueryAlias.PieceAt | scripts/patch-os-query-alias.py:10 | a piece of the alias text found at a position sits at its offset from it |
| QueryAlias.AliasTestQ | scripts/patch-os-query-alias.py:24 | the inserted alias test starts with `q` and one space |
| QueryAlias.AliasTestIn | scripts/patch-os-query-alias.py:24 | the alias test goes on with `in` and one space |
| QueryAlias.AliasTestTail | scripts/patch-os-query-alias.py:24 | the alias test ends with `("raspi",`, one space and `"rpi")` |
| QueryAlias.TokensMatch | scripts/patch-os-query-alias.py:10 | the pattern `q\s+in\s+\("raspi",\s*"rpi"\)` matches the 21 characters of the alias test |
| QueryAlias.AliasTestMatches | scripts/patch-os-query-alias.py:10 | the already-present pattern matches wherever the inserted alias test starts |
| QueryAlias.WindowFindsAlias | scripts/patch-os-query-alias.py:18-19 | after an insertion the six-line window from the query line holds the alias test |
| QueryAlias.PatchMeaning | scripts/patch-os-query-alias.py:12-33 | exit 2 exactly when no line is the query line; otherwise, at the first query line, exit 0 exactly when the six-line window already holds the alias test, and a write inserts the alias lines right after that line with every other line kept |
| QueryAlias.AliasIndented | scripts/patch-os-query-alias.py:16-26 | the alias text starts with the query line's indentation, which is whitespace only |
| QueryAlias.PatchRerun | scripts/patch-os-query-alias.py:17-21 | a second run finds the inserted text in the window and exits 0 |
| QueryAlias.PatchRun | scripts/patch-os-query-alias.py:12-33 | the `for i, line` loop, inserting into the list, gives exactly the outcome Patch specifies |
| RemoveInjections.CountInAppend | scripts/remove-bad-rcwins-injections.py:15-19 | the number of marker lines of two line lists put together is the sum of their numbers |
| RemoveInjections.CountInZero | scripts/remove-bad-rcwins-injections.py:31-33 | no line is a marker line exactly when the count of marker lines is zero |
| RemoveInjections.CountDrops | scripts/remove-bad-rcwins-injections.py:43 | deleting `lines[i:j+1]` where line i is a marker line lowers the count of marker lines, so the `while True` loop ends |
| RemoveInjections.SubSeqDropFront | scripts/remove-bad-rcwins-injections.py:43 | dropping lines in front keeps the rest a subsequence |
| RemoveInjections.SubSeqPrefix | scripts/remove-bad-rcwins-injections.py:43 | putting the same lines in front of both sides keeps a subsequence |
| RemoveInjections.SubSeqTrans | scripts/remove-bad-rcwins-injections.py:30-44 | a subsequence of a subsequence is a subsequence, so passes compose |
| RemoveInjections.DeletionIsSubSeq | scripts/remove-bad-rcwins-injections.py:43 | one deletion pass leaves the remaining lines in their original order |
| RemoveInjections.CleanWithMeaning | scripts/remove-bad-rcwins-injections.py:29-44 | a finished cleanup leaves no marker line, keeps the other lines in their order, makes at most as many passes as there were marker lines, removes at least one line per pass, and makes no pass exactly when there was no marker line |
| RemoveInjections.CleanMeaning | scripts/remove-bad-rcwins-injections.py:29-49 | the file is written exactly when the cleanup finishes, and then it holds no line with a v2 or v3 marker and is the original lines less the removed blocks, in order |
| RemoveInjections.CleanWithNoMarker | scripts/remove-bad-rcwins-injections.py:31-33 | a file without marker lines is written back unchanged with nothing removed |
| RemoveInjections.CleanIdempotent | scripts/remove-bad-rcwins-injections.py:29-49 | the cleanup run on its own output removes nothing |
| RemoveInjections.FirstPassWith | scripts/remove-bad-rcwins-injections.py:21-44 | the first pass deletes from the first marker line through the first `return jsonify(resp)` line at or after it, inclusive |
| RemoveInjections.StuckWithoutEnd | scripts/remove-bad-rcwins-injections.py:34-42 | a first marker line with no end line at or after it stops the loop before anything is written |
| RemoveInjections.StuckWithoutReturn | scripts/remove-bad-rcwins-injections.py:34-42 | a marker with no `return jsonify(resp)` line at or after it exits 2 with nothing written |
| RemoveInjections.CleanRun | scripts/remove-bad-rcwins-injections.py:29-44 | the `while True` loop, deleting `lines[i:j+1]` in each pass, ends in exactly the outcome Clean specifies |
| RestoreHelpers.DefOfStarts | scripts/restore-missing-helpers.py:12 | a line matching `^def name\s*\(` starts with `def name` |
| RestoreHelpers.CollectBlock | scripts/restore-missing-helpers.py:19-25 | the loop collects the def line and every line after it up to, not including, the first stop line |
| RestoreHelpers.RStripKeepsPrefix | scripts/restore-missing-helpers.py:26 | right-stripping keeps a prefix that ends in a non-space character |
| RestoreHelpers.JoinStartsWithFirst | scripts/restore-missing-helpers.py:26 | the joined lines start with the first line |
| RestoreHelpers.BlockTextShape | scripts/restore-missing-helpers.py:26 | a right-stripped text followed by two newlines keeps its non-space prefix and has a non-space right before the two newlines |
| RestoreHelpers.ExtractBlockNone | scripts/restore-missing-helpers.py:12-15 | `extract_block` gives None exactly when no line is a top-level `def name(` line |
| RestoreHelpers.DefFound | scripts/restore-missing-helpers.py:13 | the search for the def line stops on a `def name(` line |
| RestoreHelpers.BlockEndMeaning | scripts/restore-missing-helpers.py:21-24 | the block runs over lines that are not `@`, `def` or `class` lines, up to such a line or the end of the file |
| RestoreHelpers.BlockStartsWithDef | scripts/restore-missing-helpers.py:16-26 | the text of a block opening on a `def name(` line starts with `def name` and ends in a non-space character and exactly two newlines |
| RestoreHelpers.ExtractBlockIs | scripts/restore-missing-helpers.py:16-26 | with the def line found, the result is the right-stripped text of its block followed by two newlines |
| RestoreHelpers.ExtractBlockMeaning | scripts/restore-missing-helpers.py:10-26 | `extract_block` gives None exactly when there is no `def name(` line; otherwise the block from the first such line up to the first later stop line, starting with `def name` and ending in a non-space character and two newlines |
| RestoreHelpers.ExtractBlockRun | scripts/restore-missing-helpers.py:10-26 | the search and the collecting loop give exactly the outcome ExtractBlock specifies |
| RestoreHelpers.MissingMeaning | scripts/restore-missing-helpers.py:56-60 | the missing list holds exactly the needed names without a top-level def, and is no longer than the need list |
| RestoreHelpers.NothingMissing | scripts/restore-missing-helpers.py:57-64 | when every needed name has a def nothing is missing |
| RestoreHelpers.MissingRun | scripts/restore-missing-helpers.py:57-60 | the `for n in need` loop builds exactly the list Missing specifies |
| RestoreHelpers.AllOfSome | scripts/restore-missing-helpers.py:36-43 | the names all succeed exactly when each of them does |
| RestoreHelpers.AllOfValues | scripts/restore-missing-helpers.py:36-43 | the blocks come one per name, in name order |
| RestoreHelpers.AllOfFails | scripts/restore-missing-helpers.py:40-42 | once one name fails, the whole list fails |
| RestoreHelpers.ExtractAllMeaning | scripts/restore-missing-helpers.py:36-45 | a version yields the blocks exactly when every name extracts from it, one block per name in name order |
| RestoreHelpers.ExtractAllRun | scripts/restore-missing-helpers.py:36-45 | the inner loop over the names gives exactly the outcome ExtractAll specifies |
| RestoreHelpers.FindFromMeaning | scripts/restore-missing-helpers.py:31-46 | the version found is the first, newest first, that is readable and has every name; every version before it is unreadable or lacks a name |
| RestoreHelpers.FindInHistoryRun | scripts/restore-missing-helpers.py:31-46 | the outer loop over the versions gives exactly the outcome FindInHistory specifies |
| RestoreHelpers.InsertAt | scripts/restore-missing-helpers.py:75-80 | the insertion line lies within the file |
| RestoreHelpers.InsertAtMeaning | scripts/restore-missing-helpers.py:74-80 | the helpers go before the first `/api/health` route line when there is one, else before the first `/api/` route line, else at the end |
| RestoreHelpers.RestoreNothingToDo | scripts/restore-missing-helpers.py:53-64 | the script exits 0 without writing exactly when the file is readable and both helpers are present |
| RestoreHelpers.RestoreWrites | scripts/restore-missing-helpers.py:66-91 | a written file is the old text cut at the insertion line, with the header and the missing helpers' blocks from the first version that has them all in between |
| HealthVersioning.TopDecoratorIff | scripts/patch-health-versioning.py:27 | `^\s*@app\.` together with zero indentation says exactly that the line starts with `@app.` |
| HealthVersioning.HelperAt | scripts/patch-health-versioning.py:77-92 | the helper's insertion point lies within the file |
| HealthVersioning.HelperAtMeaning | scripts/patch-health-versioning.py:77-92 | the helper goes right after the first BASE_DIR line, else right after the first `app = Flask(` line, else at the top |
| HealthVersioning.EnsureVersionInfoWith | scripts/patch-health-versioning.py:31-33 | when nothing is added the lines are returned unchanged |
| HealthVersioning.EnsureVersionInfoMeaning | scripts/patch-health-versioning.py:31-95 | the helper is added exactly when no line defines `version_info()`, as one element at HelperAt, with every other line kept |
| HealthVersioning.EnsureVersionInfoRun | scripts/patch-health-versioning.py:31-95 | the generator expression and the two `for ... break` searches give exactly the outcome EnsureVersionInfoWith specifies |
| HealthVersioning.QuoteOf | scripts/patch-health-versioning.py:112 | the docstring's quote is its first three characters |
| HealthVersioning.FirstCode | scripts/patch-health-versioning.py:105-108 | the first line after the def and the blank lines after it lies within the block, below the def |
| HealthVersioning.PastQuote | scripts/patch-health-versioning.py:114-118 | the walk past the closing line stops within the block, at or after where it starts |
| HealthVersioning.PastQuoteMeaning | scripts/patch-health-versioning.py:114-118 | no line walked over before the stop holds the quote, and the line before the stop holds it unless the walk ran to the end |
| HealthVersioning.ViAt | scripts/patch-health-versioning.py:105-118 | `vi = version_info()` goes below the def line and no further than the end of the block |
| HealthVersioning.ViAtMeaning | scripts/patch-health-versioning.py:105-111 | without a docstring, the lines between the def and the first code line are blank and vi goes right before that code line |
| HealthVersioning.ViAtDocstring | scripts/patch-health-versioning.py:111-118 | with a docstring opening at the first code line, vi goes right after the first later line holding its quote, no line in between holding it, or at the end of the block |
| HealthVersioning.SkipBlankRun | scripts/patch-health-versioning.py:105-108 | the blank-line loop stops exactly at FirstCode |
| HealthVersioning.PastQuoteRun | scripts/patch-health-versioning.py:114-118 | the closing-quote loop stops exactly at PastQuote |
| HealthVersioning.ViAtRun | scripts/patch-health-versioning.py:105-118 | the script's two while loops stop exactly at ViAt |
| HealthVersioning.OneLineDocstringSkipsCode | scripts/patch-health-versioning.py:111-118 | as written, a one-line docstring is taken for the opening of a longer one: vi goes at least two lines below it, after code already, or at the end of the block when no later line holds the quote |
| HealthVersioning.ViAtFixed | scripts/patch-health-versioning.py:105-118 | the corrected insertion point lies below the def and within the block |
| HealthVersioning.ViAtFixedMeaning | scripts/patch-health-versioning.py:101-118 | corrected: vi goes right after a one-line docstring, and after the first later line holding the quote of a longer one; never below where the scan as written puts it |
| HealthVersioning.EnsureVi | scripts/patch-health-versioning.py:97-99 | when nothing is added the block is returned unchanged |
| HealthVersioning.EnsureViMeaning | scripts/patch-health-versioning.py:97-122 | the vi line is added exactly when no line calls `version_info()`, at the point the script's two scans find and with the indentation of line 1, with every other line kept |
| HealthVersioning.EnsureViFixed | scripts/patch-health-versioning.py:97-122 | corrected: when nothing is added the block is returned unchanged |
| HealthVersioning.EnsureViFixedMeaning | scripts/patch-health-versioning.py:97-122 | corrected: the vi line is added under the same condition as the script's, at the corrected point right after the docstring, with every other line kept |
| HealthVersioning.ReplaceVersionKeyWith | scripts/patch-health-versioning.py:124-141 | when no key is replaced the block is returned unchanged |
| HealthVersioning.ReplaceMeaning | scripts/patch-health-versioning.py:124-141 | a key is replaced exactly when a line is a "version" key line; the first one becomes the six keys at its own indentation and every other line keeps its place |
| HealthVersioning.ReplaceVersionKeyRun | scripts/patch-health-versioning.py:127-141 | the `for` loop with its early return gives exactly the outcome ReplaceVersionKeyWith specifies |
| HealthVersioning.LStripIndented | scripts/patch-health-versioning.py:126 | a line of whitespace and then a non-space text strips to that text, and its indentation is that whitespace |
| HealthVersioning.FirstNewKeyIsKey | scripts/patch-health-versioning.py:132 | the first new line, `"version": vi.get("version")`, is itself a "version" key line |
| HealthVersioning.ViLineNotKey | scripts/patch-health-versioning.py:120 | the vi line is not a key line |
| HealthVersioning.ReplaceAgainWith | scripts/patch-health-versioning.py:124-141 | for any key test that accepts the first new line, a second replacement finds a key and grows the block by five more lines |
| HealthVersioning.ReplaceAgain | scripts/patch-health-versioning.py:124-141 | nothing marks a replaced key: run again, the script replaces the first of its own six lines once more, so the block grows by five lines every run |
| HealthVersioning.EditBlockWith | scripts/patch-health-versioning.py:166-176 | the edit of the handler block fails only with status 4 |
| HealthVersioning.EditBlock | scripts/patch-health-versioning.py:166-176 | the edit with the script's key test fails only with status 4 |
| HealthVersioning.EditBlockWithExit | scripts/patch-health-versioning.py:166-176 | status 4 exactly when the block has no key line, for any key test that rejects the vi line |
| HealthVersioning.EditBlockExit | scripts/patch-health-versioning.py:166-176 | status 4 exactly when the handler block has no "version" key line |
| HealthVersioning.EditBlockKeeps | scripts/patch-health-versioning.py:178 | a write keeps every line before the handler's def and from the block end on |
| HealthVersioning.Locate | scripts/patch-health-versioning.py:144-166 | a block located lies after its def line and within the lines |
| HealthVersioning.Relocate | scripts/patch-health-versioning.py:161-164 | the searches again give a block within the lines, or fail with status 1 standing for the TypeError on a missing index |
| HealthVersioning.LocateNeverCrashes | scripts/patch-health-versioning.py:160-164 | after the helper is added, the searches again always find the decorator and the def: the TypeError never happens |
| HealthVersioning.LocateAborts | scripts/patch-health-versioning.py:144-154 | the first two searches decide statuses 2 and 3 before any edit |
| HealthVersioning.MainExitIsAbort | scripts/patch-health-versioning.py:143-179 | `main` exits with a status other than 4 exactly when the location stage aborts with it |
| HealthVersioning.MainExitCodes | scripts/patch-health-versioning.py:143-179 | status 2 exactly when the decorator search fails; status 3 exactly when it succeeds and the def search after it fails; never status 1 |
| HealthVersioning.MainExits | scripts/patch-health-versioning.py:143-179 | status 2 exactly without a health decorator line; status 3 exactly when no def line follows the first one; never status 1 |
| HealthVersioning.LocateWithoutHelper | scripts/patch-health-versioning.py:151-166 | with `version_info()` already defined, the block edited runs from the def after the first decorator to the next top-level decorator |
| HealthVersioning.LocateAdded | scripts/patch-health-versioning.py:158-164 | without a `version_info()` definition, the handler is searched again on the lines with the helper |
| HealthVersioning.LocateHelperBefore | scripts/patch-health-versioning.py:158-166 | when the helper goes in at or before the decorator, the searches again find the same handler one line further down, and its block is the input's |
| HealthVersioning.RelocateAfterInsert | scripts/patch-health-versioning.py:161-164 | after one line that is not a decorator is inserted at or before the decorator, the searches again find every line one further down |
| HealthVersioning.RelocateInserted | scripts/patch-health-versioning.py:161-164 | the same for any lines equal to the input with one line inserted |
| HealthVersioning.ShiftedSearches | scripts/patch-health-versioning.py:9-29 | each of the three searches finds its line one further down after the insertion |
| HealthVersioning.RelocateIs | scripts/patch-health-versioning.py:162-164 | the searches again give the block from their three results |
| HealthVersioning.SliceAfterInsert | scripts/patch-health-versioning.py:166 | a range at or after the insertion point is found one line further on |
| HealthVersioning.NewlineDefNotDecorator | scripts/patch-health-versioning.py:10 | a text that starts with a newline and then `d` is no decorator line |
| HealthVersioning.HelperNotDecorator | scripts/patch-health-versioning.py:35-37 | the helper element, starting with a newline and `def`, is no decorator line |
| HealthVersioning.HeadNotDecorator | scripts/patch-health-versioning.py:36-37 | any text starting with the helper's first two lines is no decorator line |
| Versioning.PlainDefIsAnnotatedDef | scripts/patch-health-versioning.py:18 | a def line that `^\s*def\s+\w+\s*\(.*\)\s*:\s*$` accepts is accepted by the variant that also allows a `-> type` annotation |
| Versioning.GitValue | scripts/patch_versioning_safe.py:21-29 | `_git` gives a value exactly when the command ran, returned 0 and printed something other than whitespace, and that value is the stripped, non-empty output |
| Versioning.FirstSetMeaning | scripts/patch_versioning_safe.py:42 | an `or` chain picks the first set candidate, every earlier one unset, and falls back to the last operand only when none is set |
| Versioning.InfoVersion | scripts/patch_versioning_safe.py:42 | the version is JR_GOLDEN_SD_VERSION, else the describe output, else the commit, else "unknown" |
| Versioning.InfoSource | scripts/patch_versioning_safe.py:42-43 | the source is "env" exactly when the environment variable is set and non-empty, and the version is then its value; otherwise "git"; the version is never empty |
| Versioning.InfoDirty | scripts/patch_versioning_safe.py:33-34 | dirty exactly when `git status --porcelain` succeeds with some output |
| Versioning.InfoSemver | scripts/patch_versioning_safe.py:36-40 | a semver is reported only with a describe output that starts with it, and it is `v` and three dot-separated digit runs |
| Versioning.DigitsEnd | scripts/patch_versioning_safe.py:38 | the digit run from a position ends at a non-digit or the end of the text |
| Versioning.PrefixLenIs | scripts/patch_versioning_safe.py:38 | a run ended by the end of the text or a character outside the class has the run's length |
| Versioning.DigitRun | scripts/patch_versioning_safe.py:38 | the `\d+` run read off the text from a position is all digits and maximal |
| Versioning.DigitsOfPrefix | scripts/patch_versioning_safe.py:38 | digits of a prefix of the text are digits of the text |
| Versioning.DigitsOfStart | scripts/patch_versioning_safe.py:38 | digits at the start of the text are digits of the text |
| Versioning.DigitsEndIs | scripts/patch_versioning_safe.py:38 | a digit run ended by the end of the text or a non-digit is the run the match takes |
| Versioning.SemverSound | scripts/patch_versioning_safe.py:38-40 | what `^(v\d+\.\d+\.\d+)` yields is a normal version at the start of the describe output, not followed by a further digit |
| Versioning.SemverComplete | scripts/patch_versioning_safe.py:38-40 | a normal version at the start of the output, not followed by a digit, is what the match yields |
| Versioning.SemverIff | scripts/patch_versioning_safe.py:38-40 | both directions: the match yields v exactly when v is a normal version that starts the output and is not followed by a digit |
| Versioning.SemverAcceptsLeadingZero | scripts/patch_versioning_safe.py:38 | leading zeroes, which section 2 of Semantic Versioning 2.0.0 rules out, pass the match: "v01.2.3-4-gabc" gives "v01.2.3" |
| VersioningSafe.SplitLines | scripts/patch_versioning_safe.py:58 | `splitlines(True)` (with `\n` the only break) gives pieces that join back to the text, each but the last ending in its only newline |
| VersioningSafe.SplitJoin | scripts/patch_versioning_safe.py:58 | splitting joined lines gives the lines back |
| VersioningSafe.BeforeFirstOfLine | scripts/patch_versioning_safe.py:58 | a line ending in its only newline is cut right after it |
| VersioningSafe.SplitTail | scripts/patch_versioning_safe.py:58 | the lines after the first of a split are a split |
| VersioningSafe.SplitLinesAfterLine | scripts/patch_versioning_safe.py:58 | a line ending in its only newline is cut off as the first piece |
| VersioningSafe.SplitLinesLastLine | scripts/patch_versioning_safe.py:58 | a last line without a newline is one piece |
| VersioningSafe.JoinAround | scripts/patch_versioning_safe.py:112 | the text is the lines before k, line k, and the lines after it |
| VersioningSafe.AnchorLineWith | scripts/patch_versioning_safe.py:46-54 | an anchor line found lies within the file |
| VersioningSafe.AnchorLineMeaning | scripts/patch_versioning_safe.py:46-54 | there is no anchor exactly when no line is a BASE_DIR or `app = Flask(` line; a BASE_DIR line wins, the first one; otherwise the first `app = Flask(` line |
| VersioningSafe.AnchorPrefixEndsLine | scripts/patch_versioning_safe.py:47-49 | `m.end()` of a `(?m)...$` match ends a line: the prefix starts the text and is followed by a newline or nothing |
| VersioningSafe.AnchorEnd | scripts/patch_versioning_safe.py:49 | `m.end()` lies within the text |
| VersioningSafe.HelperOffset | scripts/patch_versioning_safe.py:49-53 | the helper's offset lies within the text |
| VersioningSafe.WithHelperAdds | scripts/patch_versioning_safe.py:11-55 | the helper is added exactly when no line defines `version_info()`; otherwise the text is kept |
| VersioningSafe.WithHelperIs | scripts/patch_versioning_safe.py:46-54 | step 1 inserts a newline and the helper at the anchor's end |
| VersioningSafe.WithHelperFirst | scripts/patch_versioning_safe.py:53-54 | without an anchor line the helper goes first |
| VersioningSafe.WithHelperAfterAnchor | scripts/patch_versioning_safe.py:47-54 | with an anchor line the helper goes right after that line's content, before its newline, with the text on both sides kept |
| VersioningSafe.InsertAtPrefix | scripts/patch_versioning_safe.py:50 | inserting after a prefix keeps the prefix and the rest around the helper |
| VersioningSafe.EnsureViWith | scripts/patch_versioning_safe.py:76-84 | when nothing is inserted the block is returned unchanged |
| VersioningSafe.EnsureViWhen | scripts/patch_versioning_safe.py:76-84 | the `vi` line is inserted exactly when no line has the assignment and some line is a def |
| VersioningSafe.EnsureViWhere | scripts/patch_versioning_safe.py:79-84 | when inserted, it goes right after the first def line, with the next line's indentation, and everything else is kept in order |
| VersioningSafe.ViLineHasVi | scripts/patch_versioning_safe.py:82 | the inserted line holds `vi = version_info()` |
| VersioningSafe.EnsureViTwice | scripts/patch_versioning_safe.py:76-84 | after the step the block has the assignment whenever it has a def, so a second run inserts nothing |
| VersioningSafe.ViLineNoReturn | scripts/patch_versioning_safe.py:82-89 | the inserted line is no `return jsonify(` line |
| VersioningSafe.ViIndentIsSpace | scripts/patch_versioning_safe.py:81 | the indentation of the inserted line is whitespace |
| VersioningSafe.ReturnTestSkipsVi | scripts/patch_versioning_safe.py:86-91 | the return search never stops on the inserted `vi` line |
| VersioningSafe.EnsureViKeepsReturn | scripts/patch_versioning_safe.py:76-93 | inserting `vi` keeps whether the block has a return line |
| VersioningSafe.CountAbsent | scripts/patch_versioning_safe.py:96-107 | a text without a character counts zero of it |
| VersioningSafe.ParenFreeBalance | scripts/patch_versioning_safe.py:96-107 | a text without parentheses has balance zero |
| VersioningSafe.OneParen | scripts/patch_versioning_safe.py:97 | "(" has balance 1 and ")" balance -1 |
| VersioningSafe.Balance3 | scripts/patch_versioning_safe.py:96-107 | the balance of three parts is the sum of theirs |
| VersioningSafe.Balance4 | scripts/patch_versioning_safe.py:96-107 | the balance of four parts is the sum of theirs |
| VersioningSafe.Balance6 | scripts/patch_versioning_safe.py:99-104 | six balanced fields together are balanced |
| VersioningSafe.NamesParenFree | scripts/patch_versioning_safe.py:99-104 | the keys and fields of the new return hold no parenthesis |
| VersioningSafe.LettersParenFree | scripts/patch_versioning_safe.py:99-104 | a name of word characters holds no parenthesis |
| VersioningSafe.IndentParenFree | scripts/patch_versioning_safe.py:95 | leading whitespace holds no parenthesis |
| VersioningSafe.FieldBalance | scripts/patch_versioning_safe.py:99-104 | a version field `"key": vi.get("field"),` opens and closes one parenthesis |
| VersioningSafe.FieldsBalance | scripts/patch_versioning_safe.py:99-104 | the six version fields together are balanced |
| VersioningSafe.PartsParenFree | scripts/patch_versioning_safe.py:97-106 | the literal parts of the new return hold no parenthesis |
| VersioningSafe.HeadBalance | scripts/patch_versioning_safe.py:97 | the head `return jsonify({` opens one parenthesis |
| VersioningSafe.TailBalance | scripts/patch_versioning_safe.py:106 | the tail `})` closes one parenthesis |
| VersioningSafe.NewReturnBalance | scripts/patch_versioning_safe.py:96-107 | the head opens the call, the tail closes it, and the new return is balanced |
| VersioningSafe.CallEndFrom | scripts/patch_versioning_safe.py:88-109 | the first line from a start on after which the call opened on the return line is closed, or the end of the block |
| VersioningSafe.CallLast | scripts/patch_versioning_safe.py:88-109 | the return statement ends below its first line, within the block |
| VersioningSafe.NewlineBeforeEnd | scripts/patch_versioning_safe.py:96-107 | a newline ending a non-empty head stays inside any longer text |
| VersioningSafe.NewReturnSpansLines | scripts/patch_versioning_safe.py:96-107 | the new return holds a newline before its end, so it is never one line of the split text |
| VersioningSafe.AsWrittenLeavesCallTail | scripts/patch_versioning_safe.py:109 | as written only the first line of a multi-line return call is replaced: the rest of the old call stays, and a balanced handler whose return line opens more parentheses than it closes ends up with more closing than opening ones |
| VersioningSafe.AsWrittenAlwaysChanges | scripts/patch_versioning_safe.py:109-117 | as written the handler text always changes, so the `unchanged` branch is never taken and every run rewrites the file |
| VersioningSafe.HealthReturnAsWritten | scripts/patch_versioning_safe.py:95-109 | on the script's own new return: a balanced handler whose return line opens a call it does not close comes out with a negative parenthesis balance |
| VersioningSafe.HealthReturnAlwaysChanges | scripts/patch_versioning_safe.py:109-117 | the handler text differs from the old one however often the script runs |
| VersioningSafe.ReplaceCallKeepsBalance | scripts/patch_versioning_safe.py:86-109 | corrected: the whole call is replaced, nothing of it is left, and a balanced new return keeps the handler's parenthesis balance |
| VersioningSafe.HealthReturnReplaced | scripts/patch_versioning_safe.py:86-109 | corrected, on the script's own new return: the whole call goes and the balance is kept |
| VersioningSafe.PatchHandlerWith | scripts/patch_versioning_safe.py:57-117 | steps 2 to 5 stop only with status 1 or leave the text as it was; a write always changes the text; the first return line alone is replaced |
| VersioningSafe.PatchHandlerFixed | scripts/patch_versioning_safe.py:57-117 | corrected, the whole return call replaced: the same statuses, and a write always changes the text |
| VersioningSafe.PatchHandlerFixedAgrees | scripts/patch_versioning_safe.py:95-109 | when the return call closes on its own line, the corrected steps give exactly the outcome of the steps as written |
| VersioningSafe.NoHandlerExits | scripts/patch_versioning_safe.py:59-65 | without a health decorator line the script stops with status 1 and writes nothing |
| VersioningSafe.HandlerExits | scripts/patch_versioning_safe.py:74-93 | with the handler found, status 1 exactly when no line from its decorator to the next column-0 `@app.` holds a return line |
| VersioningSafe.PatchAppExits | scripts/patch_versioning_safe.py:4-117 | `patch_app_py` stops with status 1 exactly when, after step 1, there is no /api/health decorator, or its handler has no `return jsonify(` line |
| VersioningSafe.FirstRun | scripts/patch_versioning_safe.py:59-63 | the `for ... if ...: break` searches stop at the first line from a start on that passes, or the end |
| VersioningSafe.InsertViRun | scripts/patch_versioning_safe.py:76-84 | the loop inserting `vi` gives exactly the block EnsureViWith specifies |
| VersioningSafe.PatchHandlerRun | scripts/patch_versioning_safe.py:57-117 | the handler steps run in order give exactly the outcome PatchHandlerWith specifies |
| VersioningSafe.PatchAppRun | scripts/patch_versioning_safe.py:4-117 | `patch_app_py` run step by step gives exactly the outcome PatchApp specifies |
| VersioningSafe.NoPlusInPaths | scripts/patch_versioning_safe.py:125 | neither the path nor the replacement's tail holds a plus sign |
| VersioningSafe.TailMatch | scripts/patch_versioning_safe.py:125 | a match of `\+\s*/tail\?lines=200"` at the start of a text has a length within it |
| VersioningSafe.FixTailKeeps | scripts/patch_versioning_safe.py:125-131 | a text without a match is left as it is |
| VersioningSafe.FixTailLeadingSpace | scripts/patch_versioning_safe.py:125 | leading whitespace never starts a match and is kept |
| VersioningSafe.PrefixOfCons | scripts/patch_versioning_safe.py:125 | a non-empty prefix of a character and a rest is that character and a prefix of the rest |
| VersioningSafe.PlainPrefixOfFixTail | scripts/patch_versioning_safe.py:125 | a start of the output without plus signs was a start of the input |
| VersioningSafe.FixTailPlainHead | scripts/patch_versioning_safe.py:125 | an output that does not start with a plus sign started with a character kept as it was |
| VersioningSafe.FixTailStart | scripts/patch_versioning_safe.py:125 | the substituted text starts with a non-space unless empty |
| VersioningSafe.FixTailIndent | scripts/patch_versioning_safe.py:125 | the substitution keeps the leading whitespace of the text |
| VersioningSafe.KeptPlusNoMatch | scripts/patch_versioning_safe.py:125 | a plus sign the substitution left alone is still not followed by the pattern |
| VersioningSafe.FixedTailNoMatch | scripts/patch_versioning_safe.py:125 | the replacement followed by a text without a match holds no match |
| VersioningSafe.KeptCharNoMatch | scripts/patch_versioning_safe.py:125 | a character starting no match, followed by a text without a match, holds no match |
| VersioningSafe.FixTailNoMatch | scripts/patch_versioning_safe.py:125 | after `re.sub` no match is left anywhere in the text |
| VersioningSafe.FixTailIdempotent | scripts/patch_versioning_safe.py:125 | substituting twice gives what substituting once gives |
| VersioningSafe.PatchStaticMeaning | scripts/patch_versioning_safe.py:119-131 | `patch_static` writes exactly when the text holds a match; the written text holds none, so a second run leaves it |
| VersioningSafe.RunScript | scripts/patch_versioning_safe.py:133-134 | the script runs `patch_app_py`, then `patch_static` only when the first did not stop with status 1 |
| JobStatus.Overridden | scripts/patch-os-search-and-job-rc.py:83-87 | the override's assignments: `rc` is the code, status follows it, `pid_alive` is False, `pid` None and `updated_at` the current time; no other key is added or changed |
| JobStatus.RcWinsOverPidHarden | scripts/harden-jobs-v2.py:86-96 | with an rc file, the hardened `job_refresh` block, the `api_job` block and the first route snippet do not depend on which pids are alive |
| JobStatus.RcWinsOverPidEnrich | scripts/patch-job-status-rc-wins-v2.py:140-150 | with an rc file, the v2 and v3 route replacements do not depend on which pids are alive |
| JobStatus.SameIdKeys | scripts/harden-jobs-v2.py:83-84 | a job with the same `id` and `job_id` has the same derived job id |
| JobStatus.HardenRcTwice | scripts/harden-jobs-v2.py:86-96 | refreshing twice with the same rc file is refreshing once |
| JobStatus.HardenNoteTwice | scripts/harden-jobs-v2.py:104-106 | refreshing twice with the same read error is refreshing once: the first note is kept |
| JobStatus.HardenLivenessTwice | scripts/harden-jobs-v2.py:97-103 | for a 'running' job without an rc file, refreshing twice with the same live pids is refreshing once |
| JobStatusRcWinsV2.BalanceAppend | scripts/patch-job-status-rc-wins-v2.py:87-89 | the open-minus-close count of two texts together is the sum of theirs |
| JobStatusRcWinsV2.StartedHasOpen | scripts/patch-job-status-rc-wins-v2.py:81-95 | once the capture has started, some captured line holds `jsonify(` |
| JobStatusRcWinsV2.CloseFromMeaning | scripts/patch-job-status-rc-wins-v2.py:110-122 | the scan stops at the first position from its start on where the level is back to 0, or reports that there is none |
| JobStatusRcWinsV2.CloseIsMatchingParen | scripts/patch-job-status-rc-wins-v2.py:110-122 | the position found is just after a ')' and the level stays above 0 before it, so that ')' matches the opening one |
| JobStatusRcWinsV2.LevelPositive | scripts/patch-job-status-rc-wins-v2.py:110-122 | a level that starts at 1, moves one step per character and never reaches 0 stays positive |
| JobStatusRcWinsV3.SkipQuoteFree | scripts/patch-job-status-rc-wins-v3.py:21 | `re.findall` finds no path in a stretch without quotes and moves over it |
| AppLines.FirstWithText | scripts/harden-jobs-v2.py:66 | the search for a line holding a text passes over lines without it and stops at a line with it |
| AppLines.MarkedLine | scripts/harden-jobs-v2.py:76-78 | the first line of a marked body, indented, still holds the marker |
| HardenJobs.DefLineStartsWithD | scripts/harden-jobs-v2.py:21 | a line that `^def\s+name\s*\(` matches starts with 'd' |
| RemoveInjections.SubSeqRefl | scripts/remove-bad-rcwins-injections.py:30-44 | a file the loop leaves alone keeps every line in order |
| RemoveInjections.SplitThree | scripts/remove-bad-rcwins-injections.py:43 | the lines before i, from i to j and after j make up the file, which is what `del lines[i:j+1]` cuts |
| Lines.FirstIn | scripts/harden-jobs-v2.py:23-26 | the `for ... if ...: break` search gives the first passing line of the range, or its end |
| Lines.FirstInNone | scripts/harden-jobs-v2.py:23-26 | with no passing line the search runs to the end of the range |
| Lines.FirstInSkip | scripts/harden-jobs-v2.py:23-26 | failing lines at the start of the range can be skipped without changing the answer |
| Lines.FirstInShift | scripts/harden-jobs-v2.py:23-26 | the same lines further down give the same answer moved by as much |
| Lines.FirstInUpTo | scripts/harden-jobs-v2.py:23-26 | a hit is found whatever bound lies beyond it |
| Lines.FirstInInsertAfterHit | scripts/harden-jobs-v2.py:23-26 | inserting lines after the first hit leaves the hit where it was |
| Lines.NoHitUpToInserted | scripts/harden-jobs-v2.py:23-26 | failing lines inserted before the first hit leave no hit up to the end of the insertion |
| Lines.FirstInInsertBeforeHit | scripts/harden-jobs-v2.py:23-26 | failing lines inserted at or before the first hit move it down by their number |
| Lines.FirstInBeforeInsertedOne | scripts/harden-jobs-v2.py:23-26 | one failing line inserted at or before the first hit moves it down by one |
| Lines.FirstInAfterInsertedOne | scripts/harden-jobs-v2.py:23-26 | a search from the insertion point on finds the same line one further down |
| Lines.SkipInserted | scripts/harden-jobs-v2.py:23-26 | the search in the grown text passes over the lines before the insertion and the inserted ones |
| Lines.LastIn | scripts/patch-job-status-rc-wins.py:62-68 | the backward search gives the last passing line of the range, or none when no line passes |
| Lines.BlockEnd | scripts/patch-job-status-rc-wins.py:45-55 | a function ends at the first later non-blank line indented less than its def, or at the end of the file; every line before is blank or indented at least as much |
| Lines.IndentAll | scripts/harden-jobs-v2.py:78-107 | every body line is the indent followed by the line |
| Lines.Splice | scripts/harden-jobs-v2.py:146 | `lines[:a] + ins + lines[b:]` keeps the lines before a and from b on, with `ins` between them |
| Lines.SpliceInserts | scripts/harden-jobs-v2.py:146 | a splice that removes nothing inserts `ins` at that point |
| Lines.SpliceInBlock | scripts/harden-jobs-v2.py:146 | a splice written inside a block taken out of the file is the same splice of the file |
| Lines.RemoveRegion | scripts/harden-jobs-v2.py:149-161 | the lines are unchanged unless the deletion is enabled and happened |
| Lines.FindBlock | scripts/harden-jobs-v2.py:38-54 | a block found starts before its end, which lies within the file |
| Lines.FindBlockStarts | scripts/harden-jobs-v2.py:38-54 | a block begins at a start line |
| Lines.InsertedKeepsBlock | scripts/harden-jobs-v2.py:139-146 | inserting non-boundary lines inside a block keeps its start and moves its end by their number |
| Lines.InsertKeepsAny | scripts/harden-jobs-v2.py:66 | inserting lines that fail a test keeps whether some line passes it |
| Lines.AnyInSlice | scripts/harden-jobs-v2.py:66 | a line of a block taken out of the file passes exactly when that line of the file does |
| Lines.JoinThree | scripts/patch_versioning_safe.py:109-112 | the text of a block is its three parts around a region, joined |
| Lines.JoinSpliceOne | scripts/patch_versioning_safe.py:109-112 | the text of a block with a region replaced by one line is the parts around it with that line between |
| LinePattern.MatchAt | scripts/harden-jobs-v2.py:21 | a pattern matched at a position ends within the text |
| LinePattern.SearchFrom | scripts/patch-health-versioning.py:12 | `re.search`: the first position where the pattern matches and the end of that match, none before it, or no position at all |
| LinePattern.FoundAt | scripts/patch-health-versioning.py:12 | a match anywhere makes the search succeed |
| LinePattern.FoundWitness | scripts/patch-health-versioning.py:12 | a successful search has a position where the pattern matches |
| LinePattern.IndentedLineMissesLiteral | scripts/harden-jobs-v2.py:31 | a line starting with whitespace matches no pattern that starts with a literal beginning with a non-space character, so injected indented lines are never taken for `def` or decorator lines |
| PyValue.Set | scripts/harden-jobs-v2.py:93-96 | `d[key] = v`: the key holds v, one key at most is added and every other key keeps its value |
| PyValue.SetUnchanged | scripts/harden-jobs-v2.py:93-96 | writing a key the value it already has leaves the dict as it was |
| PyValue.SetDefault | scripts/harden-jobs-v2.py:106 | `setdefault`: an existing key is kept, otherwise the key is added with the value |
| PyValue.DigitChar | scripts/harden-jobs-v2.py:90 | the character for a digit is a decimal digit with that value |
| PyValue.NatToString | scripts/harden-jobs-v2.py:90 | `str(n)` of a natural number is all decimal digits and not empty |
| PyValue.NoUnderscoreNoDouble | scripts/harden-jobs-v2.py:90 | digits without '_' hold no doubled underscore, so `int()` accepts their grouping |
| PyValue.PyInt | scripts/harden-jobs-v2.py:90 | `int(s)` succeeds only on a text that is not blank |
| PyValue.SignedDigits | scripts/harden-jobs-v2.py:90 | the stripped text `int()` reads is not empty |
| PyValue.DigitsValueOfNatToString | scripts/harden-jobs-v2.py:90 | the value of the digits of `str(n)` is n |
| PyValue.StripUnpadded | scripts/harden-jobs-v2.py:88 | a text that starts and ends with non-space characters strips to itself |
| PyValue.DigitsAreGroups | scripts/harden-jobs-v2.py:90 | decimal digits form valid `int()` digit groups |
| PyValue.UnsignedDigits | scripts/harden-jobs-v2.py:90 | digits without a sign read as their value |
| PyValue.NegatedDigits | scripts/harden-jobs-v2.py:90 | a minus sign before digits reads as the negated value |
| Text.PrefixLen | scripts/patch-job-status-rc-wins.py:52 | the leading run of characters that pass a test: all of them pass and the next one, if any, fails |
| Text.SuffixLen | app/app.py:36 | the trailing run of characters that pass a test: all of them pass and the one before, if any, fails |
| Text.Indent | scripts/patch-job-status-rc-wins.py:43 | `re.match(r"^(\s*)", l).group(1)` is a prefix of the line, as long as its leading whitespace |
| Text.LStrip | scripts/patch-job-status-rc-wins.py:52 | `lstrip()` removes exactly the leading whitespace: the line is its indent followed by the result, which does not start with whitespace |
| Text.LStripAppend | scripts/patch-job-status-rc-wins.py:52 | text after a part holding a non-space character survives `lstrip` untouched |
| Text.PrefixLenAppend | scripts/patch-job-status-rc-wins.py:52 | a leading run that stops inside a text stops at the same place when more text follows |
| Text.RStripWhile | app/app.py:36 | `rstrip(chars)` gives a prefix that does not end in one of the characters, and everything removed is one of them |
| Text.StripIsStripped | app/app.py:33 | a stripped text strips to itself on either side |
| Text.StripKeepsChars | scripts/harden-jobs-v2.py:88 | stripping only removes characters |
| Text.StripLine | scripts/harden-jobs-v2.py:88 | a line with no surrounding whitespace but its newline strips to its text |
| Text.BlankIffAllSpace | scripts/patch-job-status-rc-wins.py:49 | `l.strip() == ""` holds exactly when every character is whitespace |
| Text.SplitChar | scripts/patch-job-status-rc-wins-v3.py:75 | `s.split(c)` gives at least one piece, no piece holds c, and joining them with c gives s back |
| Text.BeforeFirst | scripts/patch-job-status-rc-wins.py:74 | `s.split(c)[0]` is the prefix before the first c, the whole text exactly when it holds no c |
| Text.BeforeFirstAppend | scripts/patch-job-status-rc-wins.py:74 | the text before the first c of two texts together is that of the first when it holds a c, otherwise all of it and that of the second |
| Text.AfterFirst | scripts/patch-job-status-rc-wins-v3.py:29 | `s.split(c, 1)[1]` is what follows the first c: the text before it, c and the result make s |
| Text.RemoveChar | scripts/patch-job-status-rc-wins-v2.py:59 | `s.replace(c, "")` removes every c and nothing else |
| Text.ReplaceAll | app/app.py:28 | `s.replace(pat, rep)` leaves a text without `pat` as it is |
| Text.Lower | scripts/patch-os-search-and-job-rc.py:45 | `lower()` maps every ASCII capital to its small letter and keeps every other character |
| Text.Words | scripts/patch-os-search-and-job-rc.py:36 | the terms of `re.split(r"\s+", q)` without the empty ones are non-empty runs without whitespace |
| Text.WordsKeepText | scripts/patch-os-search-and-job-rc.py:36 | the terms lose only whitespace: glued together they are the query with its whitespace removed |
| Text.MissingCharNoText | scripts/patch-job-status-rc-wins-v2.py:59 | a text lacking one of a needle's characters does not contain the needle |
| Text.ContainsAt | scripts/harden-jobs-v2.py:66 | a needle found at a position is contained in the text |
| Text.ContainsWitness | scripts/harden-jobs-v2.py:66 | a contained needle is found at some position |
| Text.ContainsInLeft | scripts/harden-jobs-v2.py:66 | a needle in the first part is in the whole |
| Text.ContainsInRight | scripts/harden-jobs-v2.py:66 | a needle in the second part is in the whole |
| Text.ContainsPart | scripts/harden-jobs-v2.py:66 | a text holding a longer text holds every part of it |
| Text.CountCharAppend | scripts/patch-job-status-rc-wins-v2.py:87-89 | counting a character in two texts together adds their counts |
| Text.JoinAppend | scripts/harden-jobs-v2.py:170 | `"".join` of two lists together is the two texts together |
| Text.JoinSplit | scripts/harden-jobs-v2.py:170 | cutting the lines anywhere cuts the joined text at the same place |
| Text.JoinHasLine | scripts/harden-jobs-v2.py:170 | a line's text is in the joined file |
| Text.DropSpacesAppend | scripts/patch-os-search-and-job-rc.py:36 | removing whitespace from two texts together removes it from each |
| Text.DropSpacesOfSpaces | scripts/patch-os-search-and-job-rc.py:36 | whitespace alone is removed entirely |
| Text.DropSpacesOfWord | scripts/patch-os-search-and-job-rc.py:36 | a word without whitespace is kept |

## Left out

- File reads and writes, timestamped backups (`datetime.now`) and `print` output. Each script works on the text of the file and returns an `Outcome`; exit status 0 with no write is `Exit(0)`.
- Python exceptions raised by the patch scripts themselves are not modelled beyond the error exits they lead to. Exceptions caught by injected code are modelled: the rc file probe is `NoFile`, `RcText(text)` or `ReadError(message)`.
- The existence of `/proc/<pid>` is the parameter `alive: int -> bool`. The clock (`time.time()`) is a parameter `now`.
- Subprocess calls are inputs: git for the version helper and for the history search of restore-missing-helpers, and findmnt and lsblk for the disk logic. `json.loads` is an input too: the parsed value, or None when it raises.
- Flask routing, `jsonify` and HTTP plumbing. A handler's answer is a value: a `Json` body and a status code.
- Regular expressions: the simple line patterns are spelled out in `LinePattern` and `Text`. Two are inputs, and the model assumes only where a match may lie: the multi-line `start_job` regex of patch-api-download-os-jobid and the `def job_refresh(...)` search of patch-os-search-and-job-rc.
- Character classes `\d`, `\w`, `str.lower` and the digits `int()` accepts cover ASCII only: Unicode digits, word characters and case folding are not modelled. Whitespace (`\s`, `strip`, `split`) is the full set Python's `str.isspace` accepts.
- `splitlines(True)` is modelled with `\n` as the only line break. The files are LF-only text.
- Injected code updates the job dict in place. Here it is a function from the old `Json` value to the new one, so aliasing between `resp['job']` and other references is not modelled.
- The scripts update their `lines` list in place. Here each edit returns a new `seq<string>`, and the scanning loops run over a sequence that does not change.
- The markdown that patch-os-search-and-job-rc writes into the catalog document. Only the decision to rewrite it is modelled: the document is missing or still holds "(TODO)".
- Text.ReplaceAll: its own contract only states that a text without the pattern is left as it is. What it inserts is stated by CatalogSearch.ReplaceAllInserts and AppDisks.DevPrefixRemoved.
- Lines.RemoveRegion: its own contract only states when nothing changes. The removal it makes is stated by Lines.RemoveRegionDeletes.
- PyValue.PyInt: its contract states only that blank text fails. What it accepts is stated by PyValue.PyIntRoundTrip and the digit lemmas beside it.
- PyValue.PyStr: a list or dict is rendered as the placeholder "[...]" or "{...}", not as Python's repr of its items (which depends on repr's quoting and escaping rules and, for a dict, on key insertion order). Only the first character is Python's.
- CatalogSearch.DevicesText: a non-empty dict `devices` is joined key by key in Python, in insertion order, without an error. A `Json` dict keeps no key order, so the model gives None for it, as for a value that raises.
- CatalogSearch.Hay: for an item whose `devices` is a non-empty dict it gives None (see DevicesText), and a list or dict `name`, `description`, `provider_label` or `id` enters the haystack as PyStr's placeholder rather than its repr, so the search can match such items differently from the source.
- DownloadOsJobId.NormalizedJobIdMeaning: a list or dict job is normalised to PyStr's placeholder, not to `str(job)`. Whether the result is None, and which key a dict job's id comes from, are as in the source.
- The UI patchers (`patch-ui-*.py`, `patch-static-autofollow-*.py`), the documentation patchers (`patch-docs-*.py`), `gen-handoff-paste.py` and `smoke-plan-arm-disarm.py` are not part of this model. They inject browser code or prose, or talk to a running server.

## Findings

| source | as written | input that shows it | evidently intended | confidence | as-written member | corrected member |
|---|---|---|---|---|---|---|
| scripts/harden-jobs-v2.py:144-161 | step 3 searches `lines[route_s:route_e]` with the bounds found before step 2 inserted its 4 job-id lines | a first run on an `api_job` handler whose old rc-wins block ends within the handler's last 4 lines | the old block is searched in the handler as it stands after step 2, and removed | not executed | HardenFinding.HardenKeepsOldBlock | HardenFinding.HardenFixedRemovesOldBlock |
| scripts/patch-health-versioning.py:111-118 | a docstring is taken to close only on a line after the one that opens it | a handler whose docstring is one line, `"""Health."""`, followed by code | `vi = version_info()` goes right after a one-line docstring | not executed | HealthVersioning.OneLineDocstringSkipsCode | HealthVersioning.ViAtFixedMeaning |
| scripts/patch_versioning_safe.py:109 | `block[ret_k] = new_return` replaces only the line that starts `return jsonify(` | a health handler whose `return jsonify({` call runs over several lines | the whole old call is replaced by the new return | not executed | VersioningSafe.AsWrittenLeavesCallTail | VersioningSafe.ReplaceCallKeepsBalance |
| app/app.py:36 | the fallback strips trailing digits, then every trailing 'p' | `/dev/sdp1` with `lsblk` failing gives "sd" | only the 'p' that separates a partition number from a disk name ending in a digit is stripped, giving "sdp" | not executed | AppDisks.StripPartitionAsWrittenLosesP | AppDisks.StripPartitionNamings |
