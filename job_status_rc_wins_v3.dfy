// patch-job-status-rc-wins-v3.py: the v2 rewrite of the job-status return call, aimed at the
// base job route (a quoted `/api/job/<...>` with nothing after its '>') and naming the job id by
// the handler's own first parameter. The capture loop and the matching-parenthesis scan are
// v2's; the exit codes are renumbered (2 route, 3 def, 4-6 signature, 7 return, 8 capture,
// 9 no `jsonify(`, 10 no matching ')').
module JobStatusRcWinsV3 {
  import opened Common
  import opened Text
  import opened LinePattern
  import opened Lines
  import opened AppLines
  import JobStatusRcWins
  import V2 = JobStatusRcWinsV2

  const Marker := "JOB_STATUS_RC_WINS_V3"

  predicate IsQuote(c: char) { c == '\'' || c == '"' }

  predicate NotQuote(c: char) { !IsQuote(c) }

  /** `['"](/api/[^'"]+)['"]` tried at position i: the position of the closing quote. The run
      `[^'"]+` is greedy and only a quote may follow it, so there is at most one match. */
  function QuotedPathAt(s: string, i: nat): (r: Option<nat>)
    requires i <= |s|
    ensures r.Some? ==> i + 6 < r.value < |s| && IsQuote(s[i]) && IsQuote(s[r.value])
    ensures r.Some? ==> "/api/" <= s[i + 1..r.value]
    ensures r.Some? ==> forall k :: i < k < r.value ==> !IsQuote(s[k])
  {
    if i + 6 <= |s| && IsQuote(s[i]) && "/api/" <= s[i + 1..] then
      var n := PrefixLen(s[i + 6..], NotQuote);
      if n >= 1 && i + 6 + n < |s| then
        assert forall k :: i < k < i + 6 ==> s[k] == "/api/"[k - i - 1];
        assert forall k :: i + 6 <= k < i + 6 + n ==> s[k] == s[i + 6..][k - i - 6];
        Some(i + 6 + n)
      else None
    else None
  }

  /** `re.findall(...)` from position i: every quoted `/api/...` literal, left to right, the
      search resuming after the closing quote of each match. */
  function PathsFrom(s: string, i: nat): (r: seq<string>)
    requires i <= |s|
    ensures forall k :: 0 <= k < |r| ==> StartsWith(r[k], "/api/") && |r[k]| > 5
    ensures forall k :: 0 <= k < |r| ==> forall j :: 0 <= j < |r[k]| ==> !IsQuote(r[k][j])
    decreases |s| - i
  {
    if i == |s| then []
    else
      match QuotedPathAt(s, i)
      case Some(j) => [s[i + 1..j]] + PathsFrom(s, j + 1)
      case None => PathsFrom(s, i + 1)
  }

  /** `extract_paths_from_decorator(line)` */
  function Paths(line: string): seq<string> {
    PathsFrom(line, 0)
  }

  /** A stretch without quotes holds no path: the search runs over it. */
  lemma {:induction false} SkipQuoteFree(s: string, x: nat, y: nat)
    requires x <= y <= |s| && forall k :: x <= k < y ==> !IsQuote(s[k])
    ensures PathsFrom(s, x) == PathsFrom(s, y)
    decreases y - x
  {
    if x < y {
      SkipQuoteFree(s, x + 1, y);
    }
  }

  /** A quoted `/api/...` literal at i is matched, up to its closing quote. */
  lemma QuotedPathHere(s: string, i: nat, p: string)
    requires StartsWith(p, "/api/") && |p| > 5 && forall k :: 0 <= k < |p| ==> !IsQuote(p[k])
    requires i + |p| + 1 < |s| && IsQuote(s[i]) && s[i + 1..i + 1 + |p|] == p && IsQuote(s[i + 1 + |p|])
    ensures QuotedPathAt(s, i) == Some(i + 1 + |p|)
  {
    assert "/api/" <= s[i + 1..] by {
      assert s[i + 1..][..5] == p[..5];
    }
    var t := s[i + 6..];
    assert forall k :: 0 <= k < |p| - 5 ==> t[k] == p[5 + k];
    assert t[|p| - 5] == s[i + 1 + |p|];
    assert PrefixLen(t, NotQuote) == |p| - 5;
  }

  /** A line with a single quoted `/api/...` literal yields exactly that path. */
  lemma SoleQuotedPathAt(s: string, i: nat, p: string)
    requires StartsWith(p, "/api/") && |p| > 5 && forall k :: 0 <= k < |p| ==> !IsQuote(p[k])
    requires i + |p| + 1 < |s| && IsQuote(s[i]) && s[i + 1..i + 1 + |p|] == p && IsQuote(s[i + 1 + |p|])
    requires forall k :: 0 <= k < i ==> !IsQuote(s[k])
    requires forall k :: i + |p| + 1 < k < |s| ==> !IsQuote(s[k])
    ensures Paths(s) == [p]
  {
    var j := i + 1 + |p|;
    SkipQuoteFree(s, 0, i);
    QuotedPathHere(s, i, p);
    assert PathsFrom(s, i) == [p] + PathsFrom(s, j + 1);
    SkipQuoteFree(s, j + 1, |s|);
    assert PathsFrom(s, j + 1) == [];
  }

  /** The same, for a line written as its pieces. */
  lemma SoleQuotedPath(a: string, q1: char, p: string, q2: char, b: string)
    requires IsQuote(q1) && IsQuote(q2) && StartsWith(p, "/api/") && |p| > 5
    requires forall k :: 0 <= k < |a| ==> !IsQuote(a[k])
    requires forall k :: 0 <= k < |p| ==> !IsQuote(p[k])
    requires forall k :: 0 <= k < |b| ==> !IsQuote(b[k])
    ensures Paths(a + [q1] + p + [q2] + b) == [p]
  {
    var s := a + [q1] + p + [q2] + b;
    var j := |a| + 1 + |p|;
    assert s[|a| + 1..j] == p;
    assert forall k :: j < k < |s| ==> s[k] == b[k - j - 1];
    SoleQuotedPathAt(s, |a|, p);
  }

  /** `is_base_job_route(path)`: `/api/job/<` first, a '>' somewhere, and no '/' after the
      first '>'. */
  predicate IsBaseJobRoute(path: string) {
    StartsWith(path, "/api/job/<") && '>' in path && '/' !in AfterFirst(path, '>')
  }

  function IsBaseJobRouteP(): string -> bool {
    p => IsBaseJobRoute(p)
  }

  /** The sub-routes of a base route (`.../tail`, `.../cancel`) are never base routes. */
  lemma SubRouteNotBase(p: string, x: string)
    requires IsBaseJobRoute(p)
    ensures !IsBaseJobRoute(p + "/" + x)
  {
    var t := p + ("/" + x);
    assert p + "/" + x == t;
    BeforeFirstAppend(p, "/" + x, '>');
    var k := |BeforeFirst(p, '>')|;
    assert AfterFirst(t, '>') == t[k + 1..];
    assert t[k + 1..][|p| - k - 1] == '/';
  }

  /** The route test of the decorator loop: the stripped line starts with '@' and one of its
      quoted paths is a base job route. */
  predicate IsBaseRouteLine(l: string) {
    StartsWith(LStrip(l), "@") && FirstIn(Paths(l), 0, |Paths(l)|, IsBaseJobRouteP()) < |Paths(l)|
  }

  /** `route_path`: the first base job route among the line's quoted paths. */
  function RoutePath(l: string): (p: string)
    requires IsBaseRouteLine(l)
    ensures IsBaseJobRoute(p) && p in Paths(l)
  {
    Paths(l)[FirstIn(Paths(l), 0, |Paths(l)|, IsBaseJobRouteP())]
  }

  /** A decorator line whose only quoted path is a base job route is a route line for it. */
  lemma SolePathRoute(l: string, p: string)
    requires StartsWith(LStrip(l), "@") && Paths(l) == [p] && IsBaseJobRoute(p)
    ensures IsBaseRouteLine(l) && RoutePath(l) == p
  {
    assert IsBaseJobRouteP()(Paths(l)[0]);
  }

  /** A base job route is an `/api/...` path. */
  lemma BaseRouteIsApiPath(p: string)
    requires IsBaseJobRoute(p)
    ensures StartsWith(p, "/api/") && |p| > 5
  {
    assert p[..5] == "/api/job/<"[..5];
  }

  /** Text after an '@' line keeps it an '@' line. */
  lemma AtLineExtended(a: string, b: string)
    requires StartsWith(LStrip(a), "@")
    ensures StartsWith(LStrip(a + b), "@")
  {
    LStripAppend(a, b);
    assert LStrip(a + b)[0] == LStrip(a)[0];
  }

  /** The same, for a decorator written as its pieces: `@app.get(` (any text without quotes
      that strips to an '@' line), the quoted path, and the rest of the line. */
  lemma DecoratorRoute(a: string, q1: char, p: string, q2: char, b: string)
    requires IsQuote(q1) && IsQuote(q2) && IsBaseJobRoute(p) && StartsWith(LStrip(a), "@")
    requires forall k :: 0 <= k < |a| ==> !IsQuote(a[k])
    requires forall k :: 0 <= k < |p| ==> !IsQuote(p[k])
    requires forall k :: 0 <= k < |b| ==> !IsQuote(b[k])
    ensures var l := a + [q1] + p + [q2] + b; IsBaseRouteLine(l) && RoutePath(l) == p
  {
    var l := a + [q1] + p + [q2] + b;
    BaseRouteIsApiPath(p);
    SoleQuotedPath(a, q1, p, q2, b);
    assert l == a + ([q1] + p + [q2] + b);
    AtLineExtended(a, [q1] + p + [q2] + b);
    SolePathRoute(l, p);
  }

  /** The def-line test: `^\s*def\s+\w+\s*\(`, as in the earlier versions. */
  const DefLinePattern := JobStatusRcWins.DefLinePattern

  /** Group 1 of `^\s*def\s+\w+\s*\(\s*([^)]+)\s*\)\s*:` on a line: the text after the opening
      parenthesis up to the first ')', less the leading whitespace `\s*` takes (it gives back one
      character when nothing else is left for the group); the ')' must be followed by `\s*:`. */
  function SigGroup(line: string): (r: Option<string>)
    ensures r.Some? ==> r.value != [] && ')' !in r.value
  {
    match MatchAt(line, 0, DefLinePattern)
    case None => None
    case Some(e) =>
      var rest := line[e..];
      if ')' !in rest then None
      else
        var inside := BeforeFirst(rest, ')');
        if inside == [] || !StartsWith(LStrip(AfterFirst(rest, ')')), ":") then None
        else if IndentLen(inside) < |inside| then Some(LStrip(inside))
        else Some(inside[|inside| - 1..])
  }

  /** `[p.strip() for p in parts if p.strip()]` */
  function Params(parts: seq<string>): (r: seq<string>)
    ensures |r| <= |parts|
    ensures forall k :: 0 <= k < |r| ==> r[k] != []
  {
    if parts == [] then []
    else (if Strip(parts[0]) == [] then [] else [Strip(parts[0])]) + Params(parts[1..])
  }

  /** `first.split(":", 1)[0].split("=", 1)[0].strip()`: the parameter without its type hint
      and default. */
  function ParamName(p: string): string {
    Strip(BeforeFirst(BeforeFirst(p, ':'), '='))
  }

  /** The job-id parameter, or the exit code: 4 (no signature), 5 (no parameter), 6 (not an
      identifier). */
  datatype Param = NoParam(code: int) | Param(name: string)

  function ParamOf(line: string): (r: Param)
    ensures r.NoParam? ==> 4 <= r.code <= 6
    ensures r.Param? ==> IsIdentifier(r.name)
  {
    match SigGroup(line)
    case None => NoParam(4)
    case Some(g) =>
      var params := Params(SplitChar(g, ','));
      if params == [] then NoParam(5)
      else if IsIdentifier(ParamName(params[0])) then Param(ParamName(params[0]))
      else NoParam(6)
  }

  /** An identifier strips to itself. */
  lemma IdentifierStripped(id: string)
    requires IsIdentifier(id)
    ensures Strip(id) == id
  {
    assert !IsSpace(id[0]);
    assert LStrip(id) == id;
    assert !IsSpace(id[|id| - 1]);
  }

  /** A type hint (`job_id: str`) or a default (`job_id='x'`) is dropped from the name. */
  lemma ParamNameDropsAnnotation(id: string, rest: string)
    requires IsIdentifier(id) && (rest == [] || rest[0] == ':' || rest[0] == '=')
    ensures ParamName(id + rest) == id
  {
    assert ':' !in id && '=' !in id by {
      assert forall k :: 0 <= k < |id| ==> IsWordChar(id[k]);
    }
    BeforeFirstAppend(id, rest, ':');
    var b := BeforeFirst(rest, ':');
    if rest != [] && rest[0] == ':' {
      assert b == [];
      assert id + b == id;
    } else {
      assert b == [] || b[0] == '=';
      BeforeFirstAppend(id, b, '=');
      assert BeforeFirst(b, '=') == [];
      assert id + BeforeFirst(b, '=') == id;
    }
    assert BeforeFirst(id, '=') == id;
    IdentifierStripped(id);
  }

  /** The return test of the backward scan: a line mentioning both `return` and `jsonify`. */
  predicate IsReturnLine(l: string) {
    Contains(l, "return") && Contains(l, "jsonify")
  }

  function IsReturnLineP(): string -> bool {
    l => IsReturnLine(l)
  }

  /** The analysis of the return call that starts at line `rs` of a block ending at `end`: the
      line where its parentheses balance and the stripped argument, or the exit code. */
  datatype Call = NoCall(code: int) | Call(last: nat, expr: string)

  function CallOf(lines: seq<string>, end: nat, rs: nat): (r: Call)
    requires rs < end <= |lines|
    ensures r.NoCall? ==> 8 <= r.code <= 10
    ensures r.Call? ==> rs <= r.last < end
  {
    CallAfter(lines, rs, V2.CaptureEnd(lines[..end], rs, rs, V2.CountLine))
  }

  /** The analysis once the capture loop has given `cap`: no balancing line, or the call text
      from `rs` to that line searched for `jsonify(` and its matching ')'. */
  function CallAfter(lines: seq<string>, rs: nat, cap: Option<nat>): (r: Call)
    requires cap.Some? ==> rs <= cap.value < |lines|
    ensures r.NoCall? ==> 8 <= r.code <= 10
    ensures r.Call? ==> cap == Some(r.last)
  {
    match cap
    case None => NoCall(8)
    case Some(re) =>
      match V2.CallInner(V2.CallText(lines, rs, re))
      case NoOpen => NoCall(9)
      case NoClose => NoCall(10)
      case Inner(text) => Call(re, Strip(text))
  }

  /** Where the script's searches end: an exit code, or the route line and its path, the def
      line, the job-id parameter, the end of the block, the first and last line of the return
      call and its argument. */
  datatype Site =
    | NoSite(code: int)
    | Site(route: nat, path: string, def: nat, param: string, end: nat, first: nat, last: nat,
           expr: string)

  /** The route of a line: the first base job route of an '@' line, if it has one. */
  function RouteOf(l: string): (r: Option<string>)
    ensures r.Some? <==> IsBaseRouteLine(l)
    ensures r.Some? ==> IsBaseJobRoute(r.value)
  {
    if IsBaseRouteLine(l) then Some(RoutePath(l)) else None
  }

  function RouteOfP(): string -> Option<string> {
    l => RouteOf(l)
  }

  function HasRoute(routeOf: string -> Option<string>): string -> bool {
    l => routeOf(l).Some?
  }

  function ParamOfP(): string -> Param {
    l => ParamOf(l)
  }

  /** The searches of the script for the line tests it is given: the first line with a route,
      the first def line among the next 59 lines, its parameter, the end of its block, the last
      return line of the block and the call that starts there. */
  function LocateWith(lines: seq<string>, routeOf: string -> Option<string>, isDef: string -> bool,
                      paramOf: string -> Param, isRet: string -> bool): (s: Site)
    ensures s.Site? ==> s.route < s.def <= s.first <= s.last < s.end <= |lines|
  {
    var ri := FirstIn(lines, 0, |lines|, HasRoute(routeOf));
    if ri == |lines| then NoSite(2)
    else
      var hi := if ri + 60 < |lines| then ri + 60 else |lines|;
      var di := FirstIn(lines, ri + 1, hi, isDef);
      if di == hi then NoSite(3)
      else
        match paramOf(lines[di])
        case NoParam(code) => NoSite(code)
        case Param(name) => DefSite(lines, isRet, ri, routeOf(lines[ri]).value, di, name)
  }

  /** From the def line on: the end of its block, the last return line and the call. */
  function DefSite(lines: seq<string>, isRet: string -> bool, ri: nat, path: string, di: nat,
                   name: string): (s: Site)
    requires ri < di < |lines|
    ensures s.NoSite? ==> 7 <= s.code <= 10
    ensures s.Site? ==> (s.route == ri && s.path == path && s.def == di && s.param == name
      && di <= s.first <= s.last < s.end <= |lines|)
  {
    var end := BlockEnd(lines, di);
    match LastIn(lines, di, end, isRet)
    case None => NoSite(7)
    case Some(rs) =>
      match CallOf(lines, end, rs)
      case NoCall(code) => NoSite(code)
      case Call(last, expr) => Site(ri, path, di, name, end, rs, last, expr)
  }

  /** Exit 9 never comes out of the block stage. */
  lemma DefSiteNeverMissesOpen(lines: seq<string>, isRet: string -> bool, ri: nat, path: string,
                               di: nat, name: string)
    requires ri < di < |lines|
    ensures DefSite(lines, isRet, ri, path, di, name) != NoSite(9)
  {
    var end := BlockEnd(lines, di);
    match LastIn(lines, di, end, isRet)
    case None =>
    case Some(rs) => CallOfNeverMissesOpen(lines, end, rs);
  }

  function Locate(lines: seq<string>): Site {
    LocateWith(lines, RouteOfP(), MatchesP(DefLinePattern), ParamOfP(), IsReturnLineP())
  }

  /** The first replacement line, which carries the marker and the route. */
  function Head(path: string): string {
    HeadText + path + ")\n"
  }

  const HeadText := "# " + Marker + ": rc file wins over stale 'running' state (base job endpoint "

  /** The 28 enrichment lines between `resp = <argument>` and the final return, for the job-id
      variable v (a line's own indentation is written apart from its text). */
  function EnrichLines(v: string): seq<string> {
    [
      "try:\n",
      "    " + "jobs_dir = Path('cache/jobs')\n",
      "    " + "rc_path = jobs_dir / f\"{" + v + "}.rc\"\n",
      "    " + "j = None\n",
      "    " + "if isinstance(resp, dict) and isinstance(resp.get('job'), dict):\n",
      "        " + "j = resp['job']\n",
      "    " + "elif isinstance(resp, dict) and ('id' in resp) and ('status' in resp):\n",
      "        " + "j = resp\n",
      "    " + "if rc_path.exists() and isinstance(j, dict):\n",
      "        " + "rc_txt = rc_path.read_text(encoding='utf-8', errors='ignore').strip()\n",
      "        " + "try:\n",
      "            " + "rc_val = int(rc_txt)\n",
      "        " + "except Exception:\n",
      "            " + "rc_val = None\n",
      "        " + "# normalize naming: API has used exit_code historically\n",
      "        " + "j['exit_code'] = rc_val\n",
      "        " + "j['rc'] = rc_val\n",
      "        " + "j['status'] = 'success' if rc_val == 0 else 'failed'\n",
      "        " + "j['done'] = True\n",
      "    " + "elif isinstance(j, dict):\n",
      "        " + "pid = j.get('pid')\n",
      "        " + "if isinstance(pid, int) and Path(f\"/proc/{pid}\").exists():\n",
      "            " + "j['status'] = 'running'\n",
      "        " + "elif j.get('status') == 'running':\n",
      "            " + "j['status'] = 'stale'\n",
      "except Exception as _e:\n",
      "    " + "if isinstance(resp, dict):\n",
      "        " + "resp.setdefault('status_note', f\"status_enrich_error: {_e}\")\n"
    ]
  }

  /** The replacement of the return call, indented like its first line. */
  function Replacement(indent: string, path: string, expr: string, enrich: seq<string>): seq<string> {
    IndentAll(indent, [Head(path), "resp = " + expr + "\n"] + enrich + ["return jsonify(resp)\n"])
  }

  /** The script with `enrich(v)` as the enrichment lines for the job-id variable v: exit 0 when
      the marker is already in the text; otherwise the searches, and the return call replaced. */
  function PatchWith(lines: seq<string>, enrich: string -> seq<string>): Outcome<seq<string>> {
    if Contains(Join(lines), Marker) then Exit(0)
    else
      var s := Locate(lines);
      if s.NoSite? then Exit(s.code)
      else Write(Rewrite(lines, s, Replacement(Indent(lines[s.first]), s.path, s.expr, enrich(s.param))))
  }

  /** `lines[:def_i] + (block[:ret_start] + replacement + block[ret_end+1:]) + lines[end:]`,
      with the block `lines[def_i:end]` and block-relative `ret_start`, `ret_end`: the same as
      replacing the lines from the first to the last of the call, every other line keeping its
      place and order. */
  function Rewrite(lines: seq<string>, s: Site, repl: seq<string>): (r: seq<string>)
    requires s.Site? && s.def <= s.first <= s.last < s.end <= |lines|
    ensures r == Splice(lines, s.first, s.last + 1, repl)
  {
    var d, a, b, e := s.def, s.first, s.last + 1, s.end;
    var block := lines[d..e];
    SpliceInBlock(lines, d, a, b, e, repl);
    lines[..d] + (block[..a - d] + repl + block[b - d..]) + lines[e..]
  }

  /** `patch-job-status-rc-wins-v3.py` as written. */
  function Patch(lines: seq<string>): Outcome<seq<string>> {
    PatchWith(lines, EnrichLines)
  }
  /** Exit 9 ("jsonify( not found in captured return") can never happen: the captured call
      always holds the `jsonify(` that started the capture. */
  lemma CallOfNeverMissesOpen(lines: seq<string>, end: nat, rs: nat)
    requires rs < end <= |lines|
    ensures CallOf(lines, end, rs) != NoCall(9)
  {
    match V2.CaptureEnd(lines[..end], rs, rs, V2.CountLine)
    case None =>
    case Some(re) =>
      V2.CapturedCallHasOpen(lines, end, rs, re);
  }

  /** The exit codes of the searches for line tests whose parameter reading fails with 4 to
      6: 2 to 10, exit 2 exactly when no line has a route, and never exit 9. */
  lemma LocateWithExits(lines: seq<string>, routeOf: string -> Option<string>, isDef: string -> bool,
                        paramOf: string -> Param, isRet: string -> bool)
    requires forall l :: paramOf(l).NoParam? ==> 4 <= paramOf(l).code <= 6
    ensures var s := LocateWith(lines, routeOf, isDef, paramOf, isRet);
      s.NoSite? ==> 2 <= s.code <= 10 && s.code != 9
    ensures LocateWith(lines, routeOf, isDef, paramOf, isRet) == NoSite(2) <==>
      forall k :: 0 <= k < |lines| ==> routeOf(lines[k]).None?
  {
    var ri := FirstIn(lines, 0, |lines|, HasRoute(routeOf));
    if ri == |lines| {
      FirstInNone(lines, 0, |lines|, HasRoute(routeOf));
    } else {
      var hi := if ri + 60 < |lines| then ri + 60 else |lines|;
      var di := FirstIn(lines, ri + 1, hi, isDef);
      if di < hi && paramOf(lines[di]).Param? {
        DefSiteNeverMissesOpen(lines, isRet, ri, routeOf(lines[ri]).value, di, paramOf(lines[di]).name);
      }
    }
  }

  /** The exit codes of the script's searches: 2 to 10 but never 9, and 2 exactly when no line
      is an '@' line with a base job route. */
  lemma LocateExits(lines: seq<string>)
    ensures var s := Locate(lines); s.NoSite? ==> 2 <= s.code <= 10 && s.code != 9
    ensures Locate(lines) == NoSite(2) <==> forall k :: 0 <= k < |lines| ==> !IsBaseRouteLine(lines[k])
  {
    assert forall l :: ParamOfP()(l) == ParamOf(l);
    LocateWithExits(lines, RouteOfP(), MatchesP(DefLinePattern), ParamOfP(), IsReturnLineP());
    assert forall k :: 0 <= k < |lines| ==> (RouteOfP()(lines[k]).None? <==> !IsBaseRouteLine(lines[k]));
  }

  /** What the searches find for the given line tests: the first line with a route, the first
      def line within 59 lines of it and its parameter, the end of the def's block, the last
      return line of the block and the call captured from there. */
  lemma LocateWithLines(lines: seq<string>, routeOf: string -> Option<string>, isDef: string -> bool,
                        paramOf: string -> Param, isRet: string -> bool)
    requires LocateWith(lines, routeOf, isDef, paramOf, isRet).Site?
    ensures var s := LocateWith(lines, routeOf, isDef, paramOf, isRet);
      routeOf(lines[s.route]) == Some(s.path) && forall k :: 0 <= k < s.route ==> routeOf(lines[k]).None?
    ensures var s := LocateWith(lines, routeOf, isDef, paramOf, isRet);
      s.route < s.def < s.route + 60 && isDef(lines[s.def])
      && (forall k :: s.route < k < s.def ==> !isDef(lines[k])) && paramOf(lines[s.def]) == Param(s.param)
    ensures var s := LocateWith(lines, routeOf, isDef, paramOf, isRet);
      s.end == BlockEnd(lines, s.def) && isRet(lines[s.first])
      && (forall k :: s.first < k < s.end ==> !isRet(lines[k]))
      && CallOf(lines, s.end, s.first) == Call(s.last, s.expr)
  {
  }

  /** For the script's tests: the route is the first base job route of the first '@' line that
      has one, and the parameter is an identifier. */
  lemma LocateRoute(lines: seq<string>)
    requires Locate(lines).Site?
    ensures var s := Locate(lines);
      IsBaseRouteLine(lines[s.route]) && s.path == RoutePath(lines[s.route]) && IsBaseJobRoute(s.path)
      && (forall k :: 0 <= k < s.route ==> !IsBaseRouteLine(lines[k]))
      && ParamOf(lines[s.def]) == Param(s.param) && IsIdentifier(s.param)
  {
    LocateWithLines(lines, RouteOfP(), MatchesP(DefLinePattern), ParamOfP(), IsReturnLineP());
    var s := Locate(lines);
    assert RouteOfP()(lines[s.route]) == Some(s.path);
    assert RouteOf(lines[s.route]) == Some(s.path);
    assert ParamOfP()(lines[s.def]) == Param(s.param);
    forall k | 0 <= k < s.route
      ensures !IsBaseRouteLine(lines[k])
    {
      assert RouteOfP()(lines[k]).None?;
    }
  }

  /** A call is found exactly when the capture loop stopped at its last line and the call text
      from the return line to there has a `jsonify(` with a matching ')'; the argument is the
      stripped text between them (see `V2.CallInnerMeaning` for the parentheses). */
  lemma CallMeaning(lines: seq<string>, end: nat, rs: nat)
    requires rs < end <= |lines| && CallOf(lines, end, rs).Call?
    ensures var c := CallOf(lines, end, rs);
      V2.CaptureEnd(lines[..end], rs, rs, V2.CountLine) == Some(c.last)
    ensures var c := CallOf(lines, end, rs);
      var b := V2.CallInner(V2.CallText(lines, rs, c.last));
      b.Inner? && c.expr == Strip(b.text)
  {
    var cap := V2.CaptureEnd(lines[..end], rs, rs, V2.CountLine);
    assert CallOf(lines, end, rs) == CallAfter(lines, rs, cap);
  }

  /** The shape of the replacement: the marker line naming the route, `resp = <argument>`, the
      enrichment and `return jsonify(resp)`, each with the indentation of the return line. */
  lemma ReplacementShape(indent: string, path: string, expr: string, enrich: seq<string>)
    ensures var r := Replacement(indent, path, expr, enrich);
      |r| == |enrich| + 3 && Contains(r[0], Marker) && Contains(r[0], path)
      && r[1] == indent + "resp = " + expr + "\n"
      && r[|r| - 1] == indent + "return jsonify(resp)\n"
  {
    var body := [Head(path), "resp = " + expr + "\n"] + enrich + ["return jsonify(resp)\n"];
    assert body[0] == Head(path) && body[1] == "resp = " + expr + "\n";
    assert body[|body| - 1] == "return jsonify(resp)\n";
    assert Marked(body, Marker) by {
      assert Head(path) == ("# " + Marker) + (": rc file wins over stale 'running' state (base job endpoint "
        + path + ")\n");
    }
    MarkedLine(indent, body, Marker);
    var l := indent + Head(path);
    assert l[|indent| + |HeadText|..|indent| + |HeadText| + |path|] == path;
    ContainsAt(l, path, |indent| + |HeadText|);
  }

  /** What a write means: the marker was absent, the searches found the call, and the lines
      from its first to its last were replaced; every other line keeps its place and order. */
  lemma PatchReplaces(lines: seq<string>, enrich: string -> seq<string>, out: seq<string>)
    returns (s: Site)
    requires PatchWith(lines, enrich) == Write(out)
    ensures s == Locate(lines) && s.Site?
    ensures !Contains(Join(lines), Marker)
    ensures out == Rewrite(lines, s, Replacement(Indent(lines[s.first]), s.path, s.expr, enrich(s.param)))
  {
    s := Locate(lines);
  }

  /** A second run finds the marker in the first replacement line and exits 0. */
  lemma PatchRerun(lines: seq<string>, enrich: string -> seq<string>, out: seq<string>)
    requires PatchWith(lines, enrich) == Write(out)
    ensures Contains(Join(out), Marker)
    ensures PatchWith(out, enrich) == Exit(0)
  {
    var s := PatchReplaces(lines, enrich, out);
    var r := Replacement(Indent(lines[s.first]), s.path, s.expr, enrich(s.param));
    ReplacementShape(Indent(lines[s.first]), s.path, s.expr, enrich(s.param));
    assert out[s.first] == r[0];
    JoinHasLine(out, s.first, Marker);
  }

  /** The first version of the script, run after this one, stops: its marker begins this one's. */
  lemma FirstVersionStopsAfter(lines: seq<string>, enrich: string -> seq<string>, out: seq<string>,
                               tail: string -> seq<string>)
    requires PatchWith(lines, enrich) == Write(out)
    ensures JobStatusRcWins.PatchWith(out, tail) == Exit(0) || JobStatusRcWins.PatchWith(out, tail) == Exit(2)
  {
    PatchRerun(lines, enrich, out);
    MarkedStopsFirstVersion(out, tail);
  }

  /** A text holding this script's marker holds the first version's. */
  lemma MarkedStopsFirstVersion(out: seq<string>, tail: string -> seq<string>)
    requires Contains(Join(out), Marker)
    ensures JobStatusRcWins.PatchWith(out, tail) == Exit(0) || JobStatusRcWins.PatchWith(out, tail) == Exit(2)
  {
    assert Marker[..|JobStatusRcWins.Marker|] == JobStatusRcWins.Marker;
    JobStatusRcWins.LongerMarkerStops(out, tail, Marker);
  }

  /** The decorator loop: for each '@' line, its quoted paths in order until a base job route;
      the first such line and route. */
  method FindRoute(lines: seq<string>) returns (ri: nat, path: string)
    ensures ri == FirstIn(lines, 0, |lines|, HasRoute(RouteOfP()))
    ensures ri < |lines| ==> RouteOf(lines[ri]) == Some(path)
  {
    ri := 0;
    path := "";
    while ri < |lines|
      invariant ri <= |lines|
      invariant FirstIn(lines, 0, |lines|, HasRoute(RouteOfP())) == FirstIn(lines, ri, |lines|, HasRoute(RouteOfP()))
    {
      var l := lines[ri];
      if StartsWith(LStrip(l), "@") {
        var paths := Paths(l);
        var k := FindFirst(paths, 0, |paths|, IsBaseJobRouteP());
        if k < |paths| {
          path := paths[k];
          return;
        }
      }
      ri := ri + 1;
    }
  }

  /** The script's searches in order: route, def, signature, block end, return line, call. */
  method LocateRun(lines: seq<string>) returns (s: Site)
    ensures s == Locate(lines)
  {
    var ri, path := FindRoute(lines);
    s := LocateFrom(lines, RouteOfP(), MatchesP(DefLinePattern), ParamOfP(), IsReturnLineP(), ri, path);
  }

  method LocateFrom(lines: seq<string>, routeOf: string -> Option<string>, isDef: string -> bool,
                    paramOf: string -> Param, isRet: string -> bool, ri: nat, path: string)
    returns (s: Site)
    requires ri == FirstIn(lines, 0, |lines|, HasRoute(routeOf))
    requires ri < |lines| ==> routeOf(lines[ri]) == Some(path)
    ensures s == LocateWith(lines, routeOf, isDef, paramOf, isRet)
  {
    if ri == |lines| {
      return NoSite(2);
    }
    var hi := if ri + 60 < |lines| then ri + 60 else |lines|;
    var di := FindFirst(lines, ri + 1, hi, isDef);
    if di == hi {
      return NoSite(3);
    }
    var p := paramOf(lines[di]);
    if p.NoParam? {
      return NoSite(p.code);
    }
    s := DefSiteRun(lines, isRet, ri, path, di, p.name);
  }

  method DefSiteRun(lines: seq<string>, isRet: string -> bool, ri: nat, path: string, di: nat,
                    name: string) returns (s: Site)
    requires ri < di < |lines|
    ensures s == DefSite(lines, isRet, ri, path, di, name)
  {
    var end := ScanBlockEnd(lines, di);
    var rs := FindLast(lines, di, end, isRet);
    if rs.None? {
      return NoSite(7);
    }
    var c := CallRun(lines, end, rs.value);
    match c
    case NoCall(code) =>
      s := NoSite(code);
    case Call(last, expr) =>
      s := Site(ri, path, di, name, end, rs.value, last, expr);
  }

  /** The capture loop, then the search for `jsonify(` and the level scan on the call text. */
  method CallRun(lines: seq<string>, end: nat, rs: nat) returns (c: Call)
    requires rs < end <= |lines|
    ensures c == CallOf(lines, end, rs)
  {
    var re := V2.CaptureRun(lines[..end], rs, V2.CountLine);
    if re.None? {
      return NoCall(8);
    }
    var b := V2.CallInnerRun(V2.CallText(lines, rs, re.value));
    match b
    case NoOpen =>
      c := NoCall(9);
    case NoClose =>
      c := NoCall(10);
    case Inner(text) =>
      c := Call(re.value, Strip(text));
  }

  method PatchRun(lines: seq<string>, enrich: string -> seq<string>) returns (r: Outcome<seq<string>>)
    ensures r == PatchWith(lines, enrich)
  {
    if Contains(Join(lines), Marker) {
      return Exit(0);
    }
    var s := LocateRun(lines);
    if s.NoSite? {
      return Exit(s.code);
    }
    r := Write(Rewrite(lines, s, Replacement(Indent(lines[s.first]), s.path, s.expr, enrich(s.param))));
  }
}
