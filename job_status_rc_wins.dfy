// scripts/patch-job-status-rc-wins.py: inserts the rc-wins snippet (its behaviour is
// JobStatus.SnippetV1) right before the last `return jsonify(<var>...)` of the handler of the
// first `/api/job/<...>` route, after two guards on the whole text of app/app.py.
module JobStatusRcWins {
  import opened Common
  import opened Text
  import opened LinePattern
  import opened Lines
  import opened AppLines

  const Marker := "JOB_STATUS_RC_WINS"

  /** `\bfrom\s+pathlib\s+import\s+Path\b` */
  const ImportPathPattern := [Boundary, Lit("from"), Ws(1), Lit("pathlib"), Ws(1), Lit("import"), Ws(1),
                              Lit("Path"), Boundary]

  /** `^\s*def\s+\w+\s*\(` */
  const DefLinePattern := [Ws(0), Lit("def"), Ws(1), Word, Ws(0), Lit("(")]

  /** `\breturn\s+jsonify\s*\(`, the part of the return regex up to the opening parenthesis. */
  const ReturnJsonifyOpen := [Boundary, Lit("return"), Ws(1), Lit("jsonify"), Ws(0), Lit("(")]

  /** `l.lstrip().startswith("@") and "/api/job/<" in l` */
  predicate IsJobDecorator(l: string) {
    StartsWith(LStrip(l), "@") && Contains(l, "/api/job/<")
  }

  function IsJobDecoratorP(): string -> bool {
    l => IsJobDecorator(l)
  }

  /** `\breturn\s+jsonify\s*\(\s*([^)]+?)\s*\)` tried at position i, giving the group stripped:
      the text between the parenthesis and the next ')' must not be empty, and whatever the
      lazy group and the two `\s*` take of it, the stripped group is that text stripped. */
  function JsonifyArgAt(s: string, i: nat): (r: Option<string>)
    requires i <= |s|
  {
    match MatchAt(s, i, ReturnJsonifyOpen)
    case None => None
    case Some(j) =>
      var q := j + PrefixLen(s[j..], c => c != ')');
      if j < q < |s| then Some(Strip(s[j..q])) else None
  }

  /** `re.search(...)` from position i: the stripped group of the first position that matches. */
  function JsonifyArgFrom(s: string, i: nat): Option<string>
    requires i <= |s|
    decreases |s| - i
  {
    match JsonifyArgAt(s, i)
    case Some(a) => Some(a)
    case None => if i == |s| then None else JsonifyArgFrom(s, i + 1)
  }

  /** `m.group(1).strip()` of the return regex on a line, when it matches. */
  function JsonifyArg(l: string): Option<string> {
    JsonifyArgFrom(l, 0)
  }

  /** The line test of the backward search: `"return" in l and "jsonify" in l` and the regex
      matches. */
  predicate IsJsonifyReturn(l: string) {
    Contains(l, "return") && Contains(l, "jsonify") && JsonifyArg(l).Some?
  }

  function IsJsonifyReturnP(): string -> bool {
    l => IsJsonifyReturn(l)
  }

  /** `var_expr.split(",")[0].strip()` */
  function FirstArg(expr: string): string {
    Strip(BeforeFirst(expr, ','))
  }

  /** The variable a return line gives (the empty text when the regex does not match). */
  function ReturnVar(l: string): string {
    FirstArg(JsonifyArg(l).GetOr(""))
  }

  /** The snippet is 24 lines for the response variable `v`, before the return line's
      indentation is put in front of each: this marker comment, then `SnippetTail(v)`. */
  const SnippetHead := "# " + Marker + ": rc file wins over stale 'running' state\n"

  /** The snippet after its marker line (a line's own indentation is written apart from its
      text). */
  function SnippetTail(v: string): seq<string> {
    [
      "try:\n",
      "    " + "jobs_dir = Path('cache/jobs')\n",
      "    " + "rc_path = jobs_dir / f\"{job_id}.rc\"\n",
      "    " + "if rc_path.exists():\n",
      "        " + "rc_txt = rc_path.read_text(encoding='utf-8', errors='ignore').strip()\n",
      "        " + "try:\n",
      "            " + "rc_val = int(rc_txt)\n",
      "        " + "except Exception:\n",
      "            " + "rc_val = None\n",
      "        " + "if isinstance(" + v + ", dict):\n",
      "            " + v + "['rc'] = rc_val\n",
      "            " + v + "['status'] = 'success' if rc_val == 0 else 'failed'\n",
      "            " + v + "['done'] = True\n",
      "    " + "else:\n",
      "        " + "pid = " + v + ".get('pid') if isinstance(" + v + ", dict) else None\n",
      "        " + "if isinstance(pid, int) and Path(f\"/proc/{pid}\").exists():\n",
      "            " + v + "['status'] = 'running'\n",
      "        " + "elif isinstance(" + v + ", dict) and " + v + ".get('status') == 'running':\n",
      "            " + v + "['status'] = 'stale'\n",
      "except Exception as _e:\n",
      "    " + "# never break the API response because of status enrichment\n",
      "    " + "if isinstance(" + v + ", dict):\n",
      "        " + v + ".setdefault('status_note', f\"status_enrich_error: {_e}\")\n"
    ]
  }

  /** What goes in before the return line: the snippet with that line's indentation, then an
      unindented blank line. */
  function Inserted(retLine: string, snippet: seq<string>): seq<string> {
    IndentAll(Indent(retLine), snippet) + ["\n"]
  }

  /** Where the script's searches end: an exit code, or the decorator line, the def line, the
      end of the function block, the return line and the variable. */
  datatype Target = NoTarget(code: int) | Target(route: nat, def: nat, end: nat, ret: nat, v: string)

  /** The searches of the script for the line tests it is given: the first decorator line, the
      first def line among the next 39 lines, the end of that function's block, the last return
      line of the block and the variable it returns, which must be an identifier. */
  function LocateWith(lines: seq<string>, isDeco: string -> bool, isDef: string -> bool,
                      isRet: string -> bool, varOf: string -> string): (t: Target)
    ensures t.NoTarget? ==> 3 <= t.code <= 6
    ensures t.NoTarget? && t.code == 3 <==> forall k :: 0 <= k < |lines| ==> !isDeco(lines[k])
    ensures t.Target? ==> t.route < t.def < t.route + 40 && t.def <= t.ret < t.end <= |lines|
    ensures t.Target? ==> isDeco(lines[t.route])
    ensures t.Target? ==> forall k :: 0 <= k < t.route ==> !isDeco(lines[k])
    ensures t.Target? ==> isDef(lines[t.def])
    ensures t.Target? ==> forall k :: t.route < k < t.def ==> !isDef(lines[k])
    ensures t.Target? ==> t.end == BlockEnd(lines, t.def)
    ensures t.Target? ==> isRet(lines[t.ret])
    ensures t.Target? ==> forall k :: t.ret < k < t.end ==> !isRet(lines[k])
    ensures t.Target? ==> IsIdentifier(t.v) && t.v == varOf(lines[t.ret])
  {
    var ri := FirstIn(lines, 0, |lines|, isDeco);
    if ri == |lines| then NoTarget(3)
    else
      var hi := if ri + 40 < |lines| then ri + 40 else |lines|;
      var di := FirstIn(lines, ri + 1, hi, isDef);
      if di == hi then NoTarget(4)
      else
        var end := BlockEnd(lines, di);
        match LastIn(lines, di, end, isRet)
        case None => NoTarget(5)
        case Some(rk) =>
          var v := varOf(lines[rk]);
          if !IsIdentifier(v) then NoTarget(6) else Target(ri, di, end, rk, v)
  }

  function Locate(lines: seq<string>): Target {
    LocateWith(lines, IsJobDecoratorP(), MatchesP(DefLinePattern), IsJsonifyReturnP(), ReturnVar)
  }

  /** The script, with `[SnippetHead] + tail(v)` as the snippet for the variable v: exit 2 when
      `Path(` is used but never imported, exit 0 when the marker is already in the text;
      otherwise the searches, and the insertion before the return line. */
  function PatchWith(lines: seq<string>, tail: string -> seq<string>): (r: Outcome<seq<string>>)
  {
    var text := Join(lines);
    if Contains(text, "Path(") && !Found(text, ImportPathPattern) then Exit(2)
    else if Contains(text, Marker) then Exit(0)
    else
      match Locate(lines)
      case NoTarget(c) => Exit(c)
      case Target(_, _, _, rk, v) => Write(Splice(lines, rk, rk, Inserted(lines[rk], [SnippetHead] + tail(v))))
  }

  /** `patch-job-status-rc-wins.py` as written. */
  function Patch(lines: seq<string>): Outcome<seq<string>> {
    PatchWith(lines, SnippetTail)
  }

  lemma SnippetMarked(tail: seq<string>)
    ensures Marked([SnippetHead] + tail, Marker)
  {
    assert ([SnippetHead] + tail)[0] == SnippetHead;
    assert SnippetHead == ("# " + Marker) + ": rc file wins over stale 'running' state\n";
  }

  /** What a write means: neither guard fired, the searches found their lines, and the snippet
      for the variable, with the return line's indentation, followed by a blank line, was
      inserted right before the return line; every other line keeps its place and order. */
  lemma PatchInserts(lines: seq<string>, tail: string -> seq<string>, out: seq<string>) returns (t: Target)
    requires PatchWith(lines, tail) == Write(out)
    ensures t == Locate(lines) && t.Target?
    ensures !Contains(Join(lines), Marker)
    ensures !Contains(Join(lines), "Path(") || Found(Join(lines), ImportPathPattern)
    ensures InsertedAt(lines, out, t.ret, Inserted(lines[t.ret], [SnippetHead] + tail(t.v)))
  {
    t := Locate(lines);
    SpliceInserts(lines, t.ret, Inserted(lines[t.ret], [SnippetHead] + tail(t.v)));
  }

  /** A second run never writes: the snippet's first line carries the marker, so the second run
      exits 0, unless its `Path(` guard fires first (the snippet itself calls `Path(`). */
  lemma PatchRerun(lines: seq<string>, tail: string -> seq<string>, out: seq<string>)
    requires PatchWith(lines, tail) == Write(out)
    ensures Contains(Join(out), Marker)
    ensures PatchWith(out, tail) == Exit(0) || PatchWith(out, tail) == Exit(2)
    ensures Found(Join(out), ImportPathPattern) ==> PatchWith(out, tail) == Exit(0)
  {
    var t := PatchInserts(lines, tail, out);
    var s := [SnippetHead] + tail(t.v);
    SnippetMarked(tail(t.v));
    var ins := Inserted(lines[t.ret], s);
    MarkedLine(Indent(lines[t.ret]), s, Marker);
    assert out[t.ret] == ins[0] == Indent(lines[t.ret]) + s[0];
    JoinHasLine(out, t.ret, Marker);
  }

  /** Any marker that starts with this script's marker (those of the api-job and harden
      scripts do) stops the script with exit 0, unless the `Path(` guard fires first. */
  lemma LongerMarkerStops(lines: seq<string>, tail: string -> seq<string>, other: string)
    requires StartsWith(other, Marker) && Contains(Join(lines), other)
    ensures PatchWith(lines, tail) == Exit(0) || PatchWith(lines, tail) == Exit(2)
  {
    assert other[..|Marker|] == Marker;
    ContainsAt(other, Marker, 0);
    ContainsPart(Join(lines), other, Marker);
  }

  /** The script's loops: the decorator scan, the def scan over the next 39 lines, the
      block-end scan and the backward scan for the return line. */
  method PatchRun(lines: seq<string>, tail: string -> seq<string>) returns (r: Outcome<seq<string>>)
    ensures r == PatchWith(lines, tail)
  {
    var text := Join(lines);
    if Contains(text, "Path(") && !Found(text, ImportPathPattern) {
      return Exit(2);
    }
    if Contains(text, Marker) {
      return Exit(0);
    }
    var t := LocateRun(lines, IsJobDecoratorP(), MatchesP(DefLinePattern), IsJsonifyReturnP(), ReturnVar);
    match t
    case NoTarget(c) =>
      r := Exit(c);
    case Target(_, _, _, rk, v) =>
      var indent := Indent(lines[rk]);
      r := Write(lines[..rk] + (IndentAll(indent, [SnippetHead] + tail(v)) + ["\n"]) + lines[rk..]);
  }

  method LocateRun(lines: seq<string>, isDeco: string -> bool, isDef: string -> bool,
                   isRet: string -> bool, varOf: string -> string) returns (t: Target)
    ensures t == LocateWith(lines, isDeco, isDef, isRet, varOf)
  {
    var ri := FindFirst(lines, 0, |lines|, isDeco);
    if ri == |lines| {
      return NoTarget(3);
    }
    var hi := if ri + 40 < |lines| then ri + 40 else |lines|;
    var di := FindFirst(lines, ri + 1, hi, isDef);
    if di == hi {
      return NoTarget(4);
    }
    var end := ScanBlockEnd(lines, di);
    var rk := FindLast(lines, di, end, isRet);
    if rk.None? {
      return NoTarget(5);
    }
    var v := varOf(lines[rk.value]);
    if !IsIdentifier(v) {
      return NoTarget(6);
    }
    t := Target(ri, di, end, rk.value, v);
  }
}
