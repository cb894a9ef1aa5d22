// scripts/harden-jobs-v2.py: three marker-guarded edits of app/app.py. (1) the rc-wins block is
// injected into `job_refresh` before its `return job`; (2) a job-id whitelist check is added at
// the top of `api_job`; (3) once (1) is in place, the older per-route rc-wins block is removed
// from the `/api/job/<job_id>` handler.
module HardenJobs {
  import opened Common
  import opened Text
  import opened LinePattern
  import opened Lines
  import opened AppLines

  const RefreshMarker := "JOB_STATUS_RC_WINS_JOB_REFRESH"
  const ValidateMarker := "JOB_ID_VALIDATE_API_JOB"
  const OldMarker := "JOB_STATUS_RC_WINS_API_JOB"
  const JobRoute := "/api/job/<job_id>"

  /** `^def\s+<name>\s*\(` */
  function DefPattern(name: string): seq<Piece> {
    [Lit("def"), Ws(1), Lit(name), Ws(0), Lit("(")]
  }

  /** `^def\s+\w+\s*\(` */
  const AnyDefPattern := [Lit("def"), Ws(1), Word, Ws(0), Lit("(")]

  /** `^\s{4}return\s+job\s*$` */
  const ReturnJobPattern := [WsExactly(4), Lit("return"), Ws(1), Lit("job"), Ws(0), End]

  /** `^\s*def\s+api_job\s*\(` */
  const ApiJobDefPattern := [Ws(0), Lit("def"), Ws(1), Lit("api_job"), Ws(0), Lit("(")]

  /** `^\s*return\s+jsonify` */
  const ReturnJsonifyPattern := [Ws(0), Lit("return"), Ws(1), Lit("jsonify")]

  /** A line that closes a top-level function block: a route decorator or another top-level def. */
  predicate IsBlockBoundary(l: string) {
    StartsWith(l, "@app.") || Matches(l, AnyDefPattern)
  }

  predicate IsApiJobDef(l: string) {
    Matches(l, ApiJobDefPattern)
  }

  /** `find_def_block(name)`: from the first `def name(` line to the next decorator or top-level
      def (or the end of the file). */
  function FindDefBlock(lines: seq<string>, name: string): Option<(nat, nat)> {
    FindBlock(lines, MatchesP(DefPattern(name)), IsBlockBoundary)
  }

  method FindDefBlockScan(lines: seq<string>, name: string) returns (r: Option<(nat, nat)>)
    ensures r == FindDefBlock(lines, name)
  {
    var s := FindFirst(lines, 0, |lines|, MatchesP(DefPattern(name)));
    if s == |lines| {
      return None;
    }
    var e := FindFirst(lines, s + 1, |lines|, IsBlockBoundary);
    r := Some((s, e));
  }

  /** The 29 lines injected into `job_refresh` (the rc-wins block; its behaviour is
      JobStatus.HardenRefresh), before the four-space indent is put in front of each. */
  const RefreshBody: seq<string> := [
    "# " + RefreshMarker + ": rc file wins when present\n",
    "try:\n",
    "    import re\n",
    "    from pathlib import Path\n",
    "    if isinstance(job, dict):\n",
    "        _jid = job.get('id') or job.get('job_id')\n",
    "        _jid = str(_jid) if _jid is not None else ''\n",
    "        if _jid and re.fullmatch(r\"[A-Za-z0-9_-]+\", _jid):\n",
    "            rc_path = Path('cache/jobs') / (_jid + '.rc')\n",
    "            if rc_path.exists():\n",
    "                rc_txt = rc_path.read_text(encoding='utf-8', errors='ignore').strip()\n",
    "                try:\n",
    "                    rc_val = int(rc_txt)\n",
    "                except Exception:\n",
    "                    rc_val = None\n",
    "                job['exit_code'] = rc_val\n",
    "                job['rc'] = rc_val\n",
    "                job['status'] = 'success' if rc_val == 0 else 'failed'\n",
    "                job['done'] = True\n",
    "            else:\n",
    "                if job.get('status') == 'running':\n",
    "                    pid = job.get('pid')\n",
    "                    if isinstance(pid, int) and (Path('/proc') / str(pid)).exists():\n",
    "                        job['status'] = 'running'\n",
    "                    else:\n",
    "                        job['status'] = 'stale'\n",
    "except Exception as e:\n",
    "    if isinstance(job, dict):\n",
    "        job.setdefault('status_note', 'status_enrich_error: ' + str(e))\n"
  ]

  /** The four lines injected after `def api_job(...)` (their behaviour is JobId.ApiJobGuard),
      before the four-space indent is put in front of each. */
  const ValidateBody: seq<string> := [
    "# " + ValidateMarker + ": job_id is used to form filenames; keep it boring\n",
    "import re\n",
    "if not re.fullmatch(r\"[A-Za-z0-9_-]+\", job_id or \"\"):\n",
    "    return jsonify({\"ok\": False, \"error\": \"invalid job_id\"}), 400\n"
  ]

  /** What a step hands to the next: an exit code, or the lines, whether it changed them, and
      the bounds of the block it looked at (computed before its own edit). */
  datatype StepOutcome = Failed(code: int) | Next(lines: seq<string>, changed: bool, bounds: (nat, nat))

  /** The shape both insertion steps share: `noBlock` when the block is missing; the lines
      unchanged when a line of the block is already marked; `noAnchor` when no line of the block
      is an anchor; otherwise `ins` spliced in at the first anchor, or `after` lines below it. */
  function GuardedInsert(lines: seq<string>, block: Option<(nat, nat)>, marked: string -> bool,
                         anchor: string -> bool, after: nat, ins: seq<string>, noBlock: int, noAnchor: int): (r: StepOutcome)
    requires block.Some? ==> block.value.0 <= block.value.1 <= |lines|
    requires after <= 1
    ensures r.Failed? ==> r.code == noBlock || r.code == noAnchor
    ensures r.Next? && !r.changed ==> r.lines == lines
    ensures r.Next? ==> block == Some(r.bounds)
  {
    match block
    case None => Failed(noBlock)
    case Some((s, e)) =>
      if FirstIn(lines, s, e, marked) < e then Next(lines, false, (s, e))
      else
        var d := FirstIn(lines, s, e, anchor);
        if d == e then Failed(noAnchor)
        else Next(Splice(lines, d + after, d + after, ins), true, (s, e))
  }

  /** Step 1: exit 2 without `def <name>(` (`job_refresh` in the script), exit 3 when the marker
      is absent and no `    return job` line is in the block; otherwise `body` (RefreshBody in
      the script), indented by four spaces, is spliced in before it. */
  function Step1(lines: seq<string>, name: string, body: seq<string>): StepOutcome {
    GuardedInsert(lines, FindDefBlock(lines, name), HasText(RefreshMarker), MatchesP(ReturnJobPattern), 0,
                  IndentAll("    ", body), 2, 3)
  }

  /** Step 2: exit 4 without the route decorator, exit 5 when the marker is absent and no
      `def api_job(` is in the block of `route` (JobRoute in the script); otherwise `body`
      (ValidateBody in the script), indented by four spaces, goes right after that def. */
  function Step2(lines: seq<string>, route: string, body: seq<string>): StepOutcome {
    GuardedInsert(lines, FindRouteBlock(lines, route), HasText(ValidateMarker), IsApiJobDef, 1,
                  IndentAll("    ", body), 4, 5)
  }

  predicate EndsOldBlock(l: string) {
    Contains(l, "Don't spam huge logs") || Matches(l, ReturnJsonifyPattern)
  }

  /** Step 3 on the window [rs, re) of the current lines, given whether the refresh marker was
      seen: the lines from the first old-marker line up to (excluding) the first later
      "Don't spam huge logs" or `return jsonify` line are deleted. */
  function Step3(lines: seq<string>, hasRefresh: bool, rs: nat, re: nat): (r: (seq<string>, bool))
    requires rs <= re <= |lines|
  {
    RemoveRegion(lines, hasRefresh, rs, re, HasText(OldMarker), EndsOldBlock)
  }

  /** Clamps a block computed on earlier lines to the current ones, as Python slicing does. */
  function Window(lines: seq<string>, bounds: (nat, nat)): (w: (nat, nat))
    ensures w.0 <= w.1 <= |lines|
    ensures bounds.0 <= bounds.1 <= |lines| ==> w == bounds
  {
    var lo := if bounds.0 <= |lines| then bounds.0 else |lines|;
    var hi := if bounds.1 <= |lines| then bounds.1 else |lines|;
    (lo, if hi < lo then lo else hi)
  }

  /** `marker_refresh in "".join(lines[jr_s:jr_e])` */
  predicate RefreshSeen(lines: seq<string>, bounds: (nat, nat)) {
    var w := Window(lines, bounds);
    Contains(Join(lines[w.0..w.1]), RefreshMarker)
  }

  /** Step 3 and the final write of the script as written, after step 1 (which changed the
      lines when c1 holds and found the function block at jr) and step 2 (outcome o): step 3
      reuses the bounds that steps 1 and 2 computed before their own insertions. */
  function Finish(c1: bool, jr: (nat, nat), o: StepOutcome): (r: Outcome<seq<string>>)
    ensures o.Failed? ==> r == Exit(o.code)
    ensures r.Exit? && o.Next? ==> r.code == 0 && !c1 && !o.changed
  {
    match o
    case Failed(c) => Exit(c)
    case Next(l2, c2, rb) =>
      var w := Window(l2, rb);
      var (l3, c3) := Step3(l2, RefreshSeen(l2, jr), w.0, w.1);
      if c1 || c2 || c3 then Write(l3) else Exit(0)
  }

  /** The whole script as written, for the function `name` with the body `refresh` and the
      route `route` with the check `validate`. */
  function HardenWith(lines: seq<string>, name: string, refresh: seq<string>, route: string,
                      validate: seq<string>): (r: Outcome<seq<string>>)
  {
    match Step1(lines, name, refresh)
    case Failed(c) => Exit(c)
    case Next(l1, c1, jr) => Finish(c1, jr, Step2(l1, route, validate))
  }

  /** `harden-jobs-v2.py` as written. */
  function Harden(lines: seq<string>): Outcome<seq<string>> {
    HardenWith(lines, "job_refresh", RefreshBody, JobRoute, ValidateBody)
  }

  /** Step 3 and the final write on the lines l2 that steps 1 and 2 left, given whether either
      changed them and the function and route blocks of l2. */
  function FinishOn(l2: seq<string>, changed: bool, jr: Option<(nat, nat)>, rb: Option<(nat, nat)>): (r: Outcome<seq<string>>)
    requires rb.Some? ==> rb.value.0 <= rb.value.1 <= |l2|
    ensures r.Exit? ==> r.code == 0 && !changed
  {
    var hasRefresh := if jr.Some? then RefreshSeen(l2, jr.value) else false;
    var (l3, c3) := if rb.Some? then Step3(l2, hasRefresh, rb.value.0, rb.value.1) else (l2, false);
    if changed || c3 then Write(l3) else Exit(0)
  }

  /** Step 3 and the final write with the blocks searched again in the lines step 2 left. */
  function FinishFixed(name: string, route: string, c1: bool, o: StepOutcome): (r: Outcome<seq<string>>)
    ensures o.Failed? ==> r == Exit(o.code)
    ensures r.Exit? && o.Next? ==> r.code == 0 && !c1 && !o.changed
  {
    match o
    case Failed(c) => Exit(c)
    case Next(l2, c2, _) => FinishOn(l2, c1 || c2, FindDefBlock(l2, name), FindRouteBlock(l2, route))
  }

  /** The corrected script, for the same parameters as HardenWith. */
  function HardenFixedWith(lines: seq<string>, name: string, refresh: seq<string>, route: string,
                           validate: seq<string>): (r: Outcome<seq<string>>)
  {
    match Step1(lines, name, refresh)
    case Failed(c) => Exit(c)
    case Next(l1, c1, _) => FinishFixed(name, route, c1, Step2(l1, route, validate))
  }

  /** The corrected script. */
  function HardenFixed(lines: seq<string>): Outcome<seq<string>> {
    HardenFixedWith(lines, "job_refresh", RefreshBody, JobRoute, ValidateBody)
  }

  lemma DefLineStartsWithD(l: string, name: string)
    requires Matches(l, DefPattern(name))
    ensures l != [] && l[0] == 'd'
  {
    assert "def" <= l[0..];
  }

  /** No inserted line (four spaces first) is a decorator or a top-level def. */
  lemma IndentedIsNoBoundary(l: string, body: string)
    requires l == "    " + body
    ensures !IsBlockBoundary(l) && !IsAppDecorator(l)
  {
    assert AnyDefPattern == [Lit("def")] + AnyDefPattern[1..];
    IndentedLineMissesLiteral(l, "def", AnyDefPattern[1..]);
    assert l[0] == ' ';
  }

  lemma InsertIsNoBoundary(body: seq<string>)
    ensures forall k :: 0 <= k < |IndentAll("    ", body)| ==> !IsBlockBoundary(IndentAll("    ", body)[k])
    ensures forall k :: 0 <= k < |IndentAll("    ", body)| ==> !IsAppDecorator(IndentAll("    ", body)[k])
  {
    forall k | 0 <= k < |body| ensures !IsBlockBoundary(IndentAll("    ", body)[k]) && !IsAppDecorator(IndentAll("    ", body)[k]) {
      IndentedIsNoBoundary(IndentAll("    ", body)[k], body[k]);
    }
  }

  lemma RefreshBodyMarked()
    ensures Marked(RefreshBody, RefreshMarker)
  {
    assert RefreshBody[0] == ("# " + RefreshMarker) + ": rc file wins when present\n";
  }

  lemma ValidateBodyMarked()
    ensures Marked(ValidateBody, ValidateMarker)
  {
    assert ValidateBody[0] == ("# " + ValidateMarker) + ": job_id is used to form filenames; keep it boring\n";
  }

  /** What a guarded insertion did when it changed the lines: the block was found, none of its
      lines was marked, and `ins` went in at the first anchor of the block (or after it). */
  lemma GuardedInsertEdit(lines: seq<string>, block: Option<(nat, nat)>, marked: string -> bool,
                          anchor: string -> bool, after: nat, ins: seq<string>, noBlock: int, noAnchor: int,
                          out: seq<string>, s: nat, e: nat) returns (d: nat)
    requires block.Some? ==> block.value.0 <= block.value.1 <= |lines|
    requires after <= 1
    requires GuardedInsert(lines, block, marked, anchor, after, ins, noBlock, noAnchor) == Next(out, true, (s, e))
    ensures block == Some((s, e)) && s <= d < e <= |lines| && anchor(lines[d])
    ensures FirstIn(lines, s, e, marked) == e
    ensures out == Splice(lines, d + after, d + after, ins)
  {
    d := FirstIn(lines, s, e, anchor);
  }

  /** A marked body inserted into a block, after its first line, grows the block by its length
      and puts its marker inside the block, as long as no inserted line is a boundary. */
  lemma MarkedInsertInBlock(lines: seq<string>, out: seq<string>, start: string -> bool, boundary: string -> bool,
                            s: nat, e: nat, at: nat, body: seq<string>, marker: string)
    requires FindBlock(lines, start, boundary) == Some((s, e)) && s < at <= e && Marked(body, marker)
    requires forall k :: 0 <= k < |body| ==> !boundary(IndentAll("    ", body)[k])
    requires InsertedAt(lines, out, at, IndentAll("    ", body))
    ensures FindBlock(out, start, boundary) == Some((s, e + |body|))
    ensures s <= e + |body| <= |out| && FirstIn(out, s, e + |body|, HasText(marker)) < e + |body|
  {
    var ins := IndentAll("    ", body);
    InsertedKeepsBlock(lines, out, start, boundary, s, e, at, ins);
    MarkedLine("    ", body, marker);
    assert out[at + 0] == ins[0];
    AnyInIffFound(out, s, e + |body|, HasText(marker));
  }

  /** Where a guarded insertion that changed the lines put its body: strictly below the block's
      first line and no later than its end, when an anchor is never a block's first line or the
      body goes after the anchor. */
  lemma GuardedInsertAt(lines: seq<string>, start: string -> bool, boundary: string -> bool, marked: string -> bool,
                        anchor: string -> bool, after: nat, ins: seq<string>, noBlock: int, noAnchor: int,
                        out: seq<string>, s: nat, e: nat) returns (at: nat)
    requires after <= 1
    requires after == 1 || forall k :: 0 <= k < |lines| && start(lines[k]) ==> !anchor(lines[k])
    requires GuardedInsert(lines, FindBlock(lines, start, boundary), marked, anchor, after, ins, noBlock, noAnchor)
             == Next(out, true, (s, e))
    ensures FindBlock(lines, start, boundary) == Some((s, e)) && s < at <= e
    ensures InsertedAt(lines, out, at, ins)
  {
    var d := GuardedInsertEdit(lines, FindBlock(lines, start, boundary), marked, anchor, after, ins,
                               noBlock, noAnchor, out, s, e);
    if after == 0 {
      FindBlockStarts(lines, start, boundary, s, e);
      assert !anchor(lines[s]);
    }
    at := d + after;
    SpliceInserts(lines, at, ins);
  }

  /** A guarded insertion finds its marker in the block it is given and changes nothing. */
  lemma GuardedInsertFindsMarker(lines: seq<string>, block: Option<(nat, nat)>, marked: string -> bool,
                                 anchor: string -> bool, after: nat, ins: seq<string>, noBlock: int, noAnchor: int,
                                 s: nat, e: nat)
    requires block == Some((s, e)) && s <= e <= |lines| && after <= 1
    requires FirstIn(lines, s, e, marked) < e
    ensures GuardedInsert(lines, block, marked, anchor, after, ins, noBlock, noAnchor) == Next(lines, false, (s, e))
  {
  }

  /** After a guarded insertion of a marked body has changed the lines, the block still starts
      at the same line, now ends |body| lines later, and holds the marker; so a second run
      changes nothing. The inserted lines must not be boundaries, and an anchor line must not
      be a block's first line when the body goes in before the anchor. */
  lemma GuardedInsertGuarded(lines: seq<string>, start: string -> bool, boundary: string -> bool, marker: string,
                             anchor: string -> bool, after: nat, body: seq<string>, noBlock: int, noAnchor: int,
                             out: seq<string>, s: nat, e: nat)
    requires after <= 1 && Marked(body, marker)
    requires forall k :: 0 <= k < |body| ==> !boundary(IndentAll("    ", body)[k])
    requires after == 1 || forall k :: 0 <= k < |lines| && start(lines[k]) ==> !anchor(lines[k])
    requires GuardedInsert(lines, FindBlock(lines, start, boundary), HasText(marker), anchor, after,
                           IndentAll("    ", body), noBlock, noAnchor) == Next(out, true, (s, e))
    ensures FindBlock(out, start, boundary) == Some((s, e + |body|))
    ensures GuardedInsert(out, FindBlock(out, start, boundary), HasText(marker), anchor, after,
                          IndentAll("    ", body), noBlock, noAnchor) == Next(out, false, (s, e + |body|))
  {
    var at := GuardedInsertAt(lines, start, boundary, HasText(marker), anchor, after, IndentAll("    ", body),
                              noBlock, noAnchor, out, s, e);
    GrownBlockRerun(lines, start, boundary, marker, anchor, after, body, noBlock, noAnchor, out, s, e, at);
  }

  /** With the marked body inserted inside the block, the block is found again |body| lines
      longer, and the guarded insertion finds the marker there. */
  lemma GrownBlockRerun(lines: seq<string>, start: string -> bool, boundary: string -> bool, marker: string,
                        anchor: string -> bool, after: nat, body: seq<string>, noBlock: int, noAnchor: int,
                        out: seq<string>, s: nat, e: nat, at: nat)
    requires after <= 1 && Marked(body, marker)
    requires FindBlock(lines, start, boundary) == Some((s, e)) && s < at <= e
    requires forall k :: 0 <= k < |body| ==> !boundary(IndentAll("    ", body)[k])
    requires InsertedAt(lines, out, at, IndentAll("    ", body))
    ensures FindBlock(out, start, boundary) == Some((s, e + |body|))
    ensures GuardedInsert(out, FindBlock(out, start, boundary), HasText(marker), anchor, after,
                          IndentAll("    ", body), noBlock, noAnchor) == Next(out, false, (s, e + |body|))
  {
    MarkedInsertInBlock(lines, out, start, boundary, s, e, at, body, marker);
    GuardedInsertFindsMarker(out, FindBlock(out, start, boundary), HasText(marker), anchor, after,
                             IndentAll("    ", body), noBlock, noAnchor, s, e + |body|);
  }

  /** The def line of a function block is never the `    return job` anchor. */
  lemma DefIsNoReturn(lines: seq<string>, name: string)
    ensures forall k :: 0 <= k < |lines| && MatchesP(DefPattern(name))(lines[k]) ==> !MatchesP(ReturnJobPattern)(lines[k])
  {
    forall k | 0 <= k < |lines| && MatchesP(DefPattern(name))(lines[k])
      ensures !MatchesP(ReturnJobPattern)(lines[k])
    {
      DefLineStartsWithD(lines[k], name);
    }
  }

  /** Step 1, having changed the file, is idempotent: run again on its own output it changes
      nothing, finds the function block starting at the same line and grown by the body, and
      the marker inside it. */
  lemma Step1Guarded(lines: seq<string>, name: string, body: seq<string>, out: seq<string>, s: nat, e: nat)
    requires Marked(body, RefreshMarker)
    requires Step1(lines, name, body) == Next(out, true, (s, e))
    ensures FindDefBlock(out, name) == Some((s, e + |body|))
    ensures Step1(out, name, body) == Next(out, false, (s, e + |body|))
  {
    InsertIsNoBoundary(body);
    DefIsNoReturn(lines, name);
    GuardedInsertGuarded(lines, MatchesP(DefPattern(name)), IsBlockBoundary, RefreshMarker, MatchesP(ReturnJobPattern), 0,
                         body, 2, 3, out, s, e);
  }

  /** Step 2, having changed the file, is idempotent in the same way on the route block. */
  lemma Step2Guarded(lines: seq<string>, route: string, body: seq<string>, out: seq<string>, s: nat, e: nat)
    requires Marked(body, ValidateMarker)
    requires Step2(lines, route, body) == Next(out, true, (s, e))
    ensures FindRouteBlock(out, route) == Some((s, e + |body|))
    ensures Step2(out, route, body) == Next(out, false, (s, e + |body|))
  {
    InsertIsNoBoundary(body);
    GuardedInsertGuarded(lines, IsRouteLine(route), IsAppDecorator, ValidateMarker, IsApiJobDef, 1,
                         body, 4, 5, out, s, e);
  }
}
