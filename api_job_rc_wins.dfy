// scripts/patch-api-job-rc-wins.py: inserts the rc-wins block (its behaviour is
// JobStatus.ApiJobEnrich) into the `/api/job/<job_id>` handler, right after the handler's
// `job = job_refresh(job)` line and with that line's indentation.
module ApiJobRcWins {
  import opened Common
  import opened Text
  import opened LinePattern
  import opened Lines
  import opened AppLines

  const Marker := "JOB_STATUS_RC_WINS_API_JOB"
  const JobRoute := "/api/job/<job_id>"

  /** `^\s*job\s*=\s*job_refresh\s*\(\s*job\s*\)\s*$` */
  const RefreshAssignPattern := [Ws(0), Lit("job"), Ws(0), Lit("="), Ws(0), Lit("job_refresh"), Ws(0),
                                 Lit("("), Ws(0), Lit("job"), Ws(0), Lit(")"), Ws(0), End]

  /** The 22 injected lines, before the anchor's indentation is put in front of each; a line's
      own indentation within the block is written apart from its text. */
  const Body: seq<string> := [
    "# " + Marker + ": rc file wins over stale 'running' state\n",
    "try:\n",
    "    " + "from pathlib import Path\n",
    "    " + "rc_path = Path('cache/jobs') / f\"{job_id}.rc\"\n",
    "    " + "if rc_path.exists():\n",
    "        " + "rc_txt = rc_path.read_text(encoding='utf-8', errors='ignore').strip()\n",
    "        " + "try:\n",
    "            " + "rc_val = int(rc_txt)\n",
    "        " + "except Exception:\n",
    "            " + "rc_val = None\n",
    "        " + "job['exit_code'] = rc_val\n",
    "        " + "job['rc'] = rc_val\n",
    "        " + "job['status'] = 'success' if rc_val == 0 else 'failed'\n",
    "        " + "job['done'] = True\n",
    "    " + "else:\n",
    "        " + "pid = job.get('pid')\n",
    "        " + "if isinstance(pid, int) and Path(f\"/proc/{pid}\").exists():\n",
    "            " + "job['status'] = 'running'\n",
    "        " + "elif job.get('status') == 'running':\n",
    "            " + "job['status'] = 'stale'\n",
    "except Exception as e:\n",
    "    " + "job.setdefault('status_note', f\"status_enrich_error: {e}\")\n"
  ]

  /** The shape of the script on a block: the lines unchanged with exit 0 when a line of the
      block is marked; exit 3 when no line of it is an anchor; otherwise the body, indented like
      the first anchor, goes right after that anchor. */
  function InsertAfterAnchor(lines: seq<string>, s: nat, e: nat, marked: string -> bool, anchor: string -> bool,
                             body: seq<string>): (r: Outcome<seq<string>>)
    requires s <= e <= |lines|
  {
    if FirstIn(lines, s, e, marked) < e then Exit(0)
    else
      var d := FirstIn(lines, s, e, anchor);
      if d == e then Exit(3)
      else Write(Splice(lines, d + 1, d + 1, IndentAll(Indent(lines[d]), body)))
  }

  /** The script for the handler of `route` and an injected `body` that starts with `marker`:
      exit 2 without the decorator; exit 0 (nothing written) when a line of the handler block
      holds the marker; exit 3 when no line of the block is `job = job_refresh(job)`; otherwise
      the body, indented like that line, goes right after it. */
  function PatchWith(lines: seq<string>, route: string, marker: string, body: seq<string>): (r: Outcome<seq<string>>)
  {
    match FindRouteBlock(lines, route)
    case None => Exit(2)
    case Some((s, e)) => InsertAfterAnchor(lines, s, e, HasText(marker), MatchesP(RefreshAssignPattern), body)
  }

  /** `patch-api-job-rc-wins.py` as written. */
  function Patch(lines: seq<string>): Outcome<seq<string>> {
    PatchWith(lines, JobRoute, Marker, Body)
  }

  /** The exit codes: 2 exactly when the decorator is missing, 0 only when the handler block
      holds the marker, and 3 only when it holds no `job = job_refresh(job)` line. */
  lemma PatchExits(lines: seq<string>, route: string, marker: string, body: seq<string>)
    ensures var r := PatchWith(lines, route, marker, body);
      r == Exit(2) <==> FindRouteBlock(lines, route).None?
    ensures var r := PatchWith(lines, route, marker, body);
      r.Exit? ==> r.code == 0 || r.code == 2 || r.code == 3
    ensures var r := PatchWith(lines, route, marker, body);
      r == Exit(0) ==> exists s, e, k :: FindRouteBlock(lines, route) == Some((s, e)) && s <= k < e && Contains(lines[k], marker)
    ensures var r := PatchWith(lines, route, marker, body);
      r == Exit(3) ==> exists s, e ::
        (FindRouteBlock(lines, route) == Some((s, e)) && forall k :: s <= k < e ==> !Matches(lines[k], RefreshAssignPattern))
  {
    match FindRouteBlock(lines, route)
    case None =>
    case Some((s, e)) =>
      var m := FirstIn(lines, s, e, HasText(marker));
      if m < e {
        assert HasText(marker)(lines[m]);
      }
  }

  /** What a write on a block means: no line of the block is marked, and the body, with the
      indentation of the block's first anchor, was inserted right after that anchor; every
      other line keeps its place and order. */
  lemma InsertAfterAnchorEdit(lines: seq<string>, s: nat, e: nat, marked: string -> bool, anchor: string -> bool,
                              body: seq<string>, out: seq<string>) returns (d: nat)
    requires s <= e <= |lines|
    requires InsertAfterAnchor(lines, s, e, marked, anchor, body) == Write(out)
    ensures s <= d < e && anchor(lines[d])
    ensures forall k :: s <= k < d ==> !anchor(lines[k])
    ensures forall k :: s <= k < e ==> !marked(lines[k])
    ensures InsertedAt(lines, out, d + 1, IndentAll(Indent(lines[d]), body))
    ensures out == Splice(lines, d + 1, d + 1, IndentAll(Indent(lines[d]), body))
  {
    d := FirstIn(lines, s, e, anchor);
    SpliceInserts(lines, d + 1, IndentAll(Indent(lines[d]), body));
  }

  /** The same, for the whole script. */
  lemma PatchInserts(lines: seq<string>, route: string, marker: string, body: seq<string>, out: seq<string>)
    returns (s: nat, e: nat, d: nat)
    requires PatchWith(lines, route, marker, body) == Write(out)
    ensures FindRouteBlock(lines, route) == Some((s, e)) && s <= d < e <= |lines|
    ensures Matches(lines[d], RefreshAssignPattern)
    ensures forall k :: s <= k < d ==> !Matches(lines[k], RefreshAssignPattern)
    ensures forall k :: s <= k < e ==> !Contains(lines[k], marker)
    ensures InsertedAt(lines, out, d + 1, IndentAll(Indent(lines[d]), body))
  {
    var b := FindRouteBlock(lines, route).value;
    s, e := b.0, b.1;
    d := InsertAfterAnchorEdit(lines, s, e, HasText(marker), MatchesP(RefreshAssignPattern), body, out);
  }

  /** The leading whitespace of a line starts with a whitespace character, if it is not empty. */
  lemma IndentIsSpace(l: string)
    ensures Indent(l) == [] || IsSpace(Indent(l)[0])
  {
    if Indent(l) != [] {
      assert Indent(l)[0] == l[0];
    }
  }

  /** On any block that runs from a `start` line to the next decorator: after a write, the block
      starts at the same line, has grown by the body and holds the marker, so a second run exits
      0. The body must start with its marker comment and no line of it may start with '@'. */
  lemma InsertAfterAnchorGuarded(lines: seq<string>, start: string -> bool, marker: string,
                                 anchor: string -> bool, body: seq<string>, s: nat, e: nat, out: seq<string>)
    requires Marked(body, marker) && NoAtSign(body)
    requires FindBlock(lines, start, IsAppDecorator) == Some((s, e))
    requires InsertAfterAnchor(lines, s, e, HasText(marker), anchor, body) == Write(out)
    ensures FindBlock(out, start, IsAppDecorator) == Some((s, e + |body|))
    ensures InsertAfterAnchor(out, s, e + |body|, HasText(marker), anchor, body) == Exit(0)
  {
    var d := InsertAfterAnchorEdit(lines, s, e, HasText(marker), anchor, body, out);
    var indent := Indent(lines[d]);
    IndentIsSpace(lines[d]);
    IndentedKeepsBlock(lines, start, s, e, d + 1, indent, body);
    MarkerInserted(lines, d + 1, indent, body, marker);
    assert HasText(marker)(out[d + 1]);
  }

  /** Lines indented by whitespace, none starting with '@', inserted inside a block that ends at
      the next decorator, grow the block by their number. */
  lemma IndentedKeepsBlock(lines: seq<string>, start: string -> bool, s: nat, e: nat, at: nat,
                           indent: string, body: seq<string>)
    requires FindBlock(lines, start, IsAppDecorator) == Some((s, e)) && s < at <= e
    requires NoAtSign(body) && (indent == [] || IsSpace(indent[0]))
    ensures FindBlock(Splice(lines, at, at, IndentAll(indent, body)), start, IsAppDecorator) == Some((s, e + |body|))
  {
    IndentedNoDecorator(indent, body);
    InsertKeepsBlock(lines, start, IsAppDecorator, s, e, at, IndentAll(indent, body));
  }

  /** Re-running is a no-op: after a write, the second run exits 0 without writing. The body
      must start with its marker comment and no line of it may start with '@'. */
  lemma PatchIdempotent(lines: seq<string>, route: string, marker: string, body: seq<string>, out: seq<string>)
    requires Marked(body, marker) && NoAtSign(body)
    requires PatchWith(lines, route, marker, body) == Write(out)
    ensures PatchWith(out, route, marker, body) == Exit(0)
  {
    var b := FindRouteBlock(lines, route).value;
    InsertAfterAnchorGuarded(lines, IsRouteLine(route), marker, MatchesP(RefreshAssignPattern), body, b.0, b.1, out);
  }

  lemma BodyMarked()
    ensures Marked(Body, Marker)
  {
    assert Body[0] == ("# " + Marker) + ": rc file wins over stale 'running' state\n";
  }

  lemma BodyNoAtSign()
    ensures NoAtSign(Body)
  {
    forall k | 0 <= k < |Body| ensures Body[k] == [] || Body[k][0] != '@' {
      if k == 0 {
        assert Body[0] == ("# " + Marker) + ": rc file wins over stale 'running' state\n";
      } else if k == 1 {} else if k == 2 {} else if k == 3 {} else if k == 4 {} else if k == 5 {} else if k == 6 {} else if k == 7 {} else if k == 8 {} else if k == 9 {} else if k == 10 {} else if k == 11 {} else if k == 12 {} else if k == 13 {} else if k == 14 {} else if k == 15 {} else if k == 16 {} else if k == 17 {} else if k == 18 {} else if k == 19 {} else if k == 20 {} else if k == 21 {}
    }
  }

  /** The script as written is idempotent. */
  lemma PatchTwice(lines: seq<string>, out: seq<string>)
    requires Patch(lines) == Write(out)
    ensures Patch(out) == Exit(0)
  {
    BodyMarked();
    BodyNoAtSign();
    PatchIdempotent(lines, JobRoute, Marker, Body, out);
  }

  /** The marker and anchor scans of the script over the block [s, e). */
  method InsertAfterAnchorRun(lines: seq<string>, s: nat, e: nat, marked: string -> bool, anchor: string -> bool,
                              body: seq<string>) returns (r: Outcome<seq<string>>)
    requires s <= e <= |lines|
    ensures r == InsertAfterAnchor(lines, s, e, marked, anchor, body)
  {
    var k := s;
    while k < e
      invariant s <= k <= e
      invariant FirstIn(lines, s, e, marked) == FirstIn(lines, k, e, marked)
    {
      if marked(lines[k]) {
        return Exit(0);
      }
      k := k + 1;
    }
    var ins := s;
    while ins < e && !anchor(lines[ins])
      invariant s <= ins <= e
      invariant FirstIn(lines, s, e, anchor) == FirstIn(lines, ins, e, anchor)
    {
      ins := ins + 1;
    }
    if ins == e {
      return Exit(3);
    }
    var indent := Indent(lines[ins]);
    r := Write(lines[..ins + 1] + IndentAll(indent, body) + lines[ins + 1..]);
  }

  /** The whole script: the decorator and block-end scans, then the scans over the block. */
  method PatchRun(lines: seq<string>, route: string, marker: string, body: seq<string>) returns (r: Outcome<seq<string>>)
    ensures r == PatchWith(lines, route, marker, body)
  {
    var block := FindRouteBlockScan(lines, route);
    if block.None? {
      return Exit(2);
    }
    r := InsertAfterAnchorRun(lines, block.value.0, block.value.1, HasText(marker), MatchesP(RefreshAssignPattern), body);
  }
}
