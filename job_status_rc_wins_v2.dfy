// scripts/patch-job-status-rc-wins-v2.py: replaces the whole (possibly multi-line)
// `return jsonify(...)` call of the `/api/job/<...>` handler by `resp = <argument>`, the
// enrichment of `resp['job']` (its behaviour is JobStatus.EnrichV2) and `return jsonify(resp)`.
module JobStatusRcWinsV2 {
  import opened Common
  import opened Text
  import opened LinePattern
  import opened Lines
  import opened AppLines
  import JobStatusRcWins

  const Marker := "JOB_STATUS_RC_WINS_V2"

  /** `jsonify\s*\(` */
  const JsonifyOpen := [Lit("jsonify"), Ws(0), Lit("(")]

  /** Opening minus closing parentheses of a text. */
  function Balance(s: string): int {
    CountChar(s, '(') - CountChar(s, ')')
  }

  lemma BalanceAppend(a: string, b: string)
    ensures Balance(a + b) == Balance(a) + Balance(b)
  {
    CountCharAppend(a, b, '(');
    CountCharAppend(a, b, ')');
  }

  /** The test of the backward scan for the return line. After the spaces are removed the text
      can no longer hold "return jsonify", so of the script's two alternatives only the
      "returnjsonify" one can hold (`SpacedAlternativeNeverHolds`). */
  predicate IsReturnJsonify(l: string) {
    var squeezed := RemoveChar(l, ' ');
    Contains(l, "return") && Contains(l, "jsonify")
    && (Contains(squeezed, "return jsonify") || Contains(squeezed, "returnjsonify"))
    && Contains(l, "(")
  }

  function IsReturnJsonifyP(): string -> bool {
    l => IsReturnJsonify(l)
  }

  lemma SpacedAlternativeNeverHolds(l: string)
    ensures !Contains(RemoveChar(l, ' '), "return jsonify")
  {
    MissingCharNoText(RemoveChar(l, ' '), "return jsonify", ' ');
  }

  /** Where `jsonify\s*\(` first matches in a line: the position just after its parenthesis. */
  function OpenEnd(s: string): (r: Option<nat>)
    ensures r.Some? ==> 1 <= r.value <= |s| && s[r.value - 1] == '('
  {
    match SearchFrom(s, 0, JsonifyOpen)
    case None => None
    case Some((i, e)) =>
      assert MatchAt(s, i, JsonifyOpen) == Some(e);
      OpenEndHere(s, i);
      Some(e)
  }

  /** The search for `jsonify(` fails exactly when the line holds no `jsonify(`. */
  lemma OpenEndFound(s: string)
    ensures OpenEnd(s).None? <==> !Found(s, JsonifyOpen)
  {
  }

  lemma OpenEndHere(s: string, i: nat)
    requires i <= |s| && MatchAt(s, i, JsonifyOpen).Some?
    ensures var e := MatchAt(s, i, JsonifyOpen).value; 1 <= e <= |s| && s[e - 1] == '('
  {
    var j := i + 7 + IndentLen(s[i + 7..]);
    assert MatchAt(s, i, JsonifyOpen) == MatchAt(s, i + 7, JsonifyOpen[1..]);
    assert MatchAt(s, i + 7, JsonifyOpen[1..]) == MatchAt(s, j, [Lit("(")]);
    assert MatchAt(s, j, [Lit("(")]) == MatchAt(s, j + 1, []);
    assert s[j] == s[j..][0] == '(';
  }

  /** The parenthesis counting of the capture loop, one line at a time: before the call has
      started, a line where `jsonify\s*\(` matches starts it and counts from that parenthesis to
      the end of the line; once started, every parenthesis of a line counts. */
  function CountLine(started: bool, paren: int, s: string): (bool, int) {
    if started then (true, paren + Balance(s))
    else
      match OpenEnd(s)
      case None => (false, paren)
      case Some(e) => (true, paren + Balance(s[e - 1..]))
  }

  /** A per-line update of `started` and `paren`; the script's own is `CountLine`. The capture
      below is stated over any such update, so that its loop is proved without unfolding the
      regular-expression search of each line. */
  type LineCount = (bool, int, string) -> (bool, int)

  /** `started` and `paren` after the lines [from, upto) of the block. */
  function CaptureState(block: seq<string>, from: nat, upto: nat, count: LineCount): (bool, int)
    requires from <= upto <= |block|
    decreases upto - from
  {
    if upto == from then (false, 0)
    else
      var st := CaptureState(block, from, upto - 1, count);
      count(st.0, st.1, block[upto - 1])
  }

  /** The loop stops after line k: the call has started and the count is at most 0. */
  predicate Balanced(block: seq<string>, from: nat, k: nat, count: LineCount)
    requires from <= k < |block|
  {
    var st := CaptureState(block, from, k + 1, count);
    st.0 && st.1 <= 0
  }

  /** `ret_end`: the first line from `idx` on after which the call is balanced. */
  function CaptureEnd(block: seq<string>, from: nat, idx: nat, count: LineCount): (r: Option<nat>)
    requires from <= idx <= |block|
    ensures r.Some? ==> idx <= r.value < |block| && Balanced(block, from, r.value, count)
    ensures r.Some? ==> forall k :: idx <= k < r.value ==> !Balanced(block, from, k, count)
    ensures r.None? ==> forall k :: idx <= k < |block| ==> !Balanced(block, from, k, count)
    decreases |block| - idx
  {
    if idx == |block| then None
    else if Balanced(block, from, idx, count) then Some(idx)
    else CaptureEnd(block, from, idx + 1, count)
  }

  /** Once the capture has started, some line of it holds `jsonify(`. */
  lemma {:induction false} StartedHasOpen(block: seq<string>, from: nat, upto: nat) returns (k: nat)
    requires from <= upto <= |block| && CaptureState(block, from, upto, CountLine).0
    ensures from <= k < upto && OpenEnd(block[k]).Some?
    decreases upto - from
  {
    if CaptureState(block, from, upto - 1, CountLine).0 {
      k := StartedHasOpen(block, from, upto - 1);
    } else {
      k := upto - 1;
    }
  }

  /** A match of `jsonify\s*\(` at i spelled out: the word, a whitespace run, then '('. */
  predicate OpensAt(s: string, i: nat) {
    i + 7 <= |s| && s[i..i + 7] == "jsonify"
    && i + 7 + IndentLen(s[i + 7..]) < |s| && s[i + 7 + IndentLen(s[i + 7..])] == '('
  }

  lemma OpenParts(s: string, i: nat)
    requires i <= |s| && MatchAt(s, i, JsonifyOpen).Some?
    ensures OpensAt(s, i)
  {
    var n := IndentLen(s[i + 7..]);
    assert MatchAt(s, i, JsonifyOpen) == MatchAt(s, i + 7, JsonifyOpen[1..]);
    assert MatchAt(s, i + 7, JsonifyOpen[1..]) == MatchAt(s, i + 7 + n, [Lit("(")]);
    assert s[i + 7 + n] == s[i + 7 + n..][0];
  }

  lemma OpenFromParts(s: string, i: nat)
    requires OpensAt(s, i)
    ensures MatchAt(s, i, JsonifyOpen).Some?
  {
    var n := IndentLen(s[i + 7..]);
    assert "jsonify" <= s[i..];
    assert MatchAt(s, i, JsonifyOpen) == MatchAt(s, i + 7, JsonifyOpen[1..]);
    assert "(" <= s[i + 7 + n..];
  }

  /** `jsonify\s*\(` at i of `s` is still there once text is put around `s`: the whitespace
      run stops at the parenthesis, inside `s`. */
  lemma OpenShift(a: string, s: string, b: string, i: nat)
    requires OpensAt(s, i)
    ensures OpensAt(a + s + b, |a| + i)
  {
    var t := a + s + b;
    var j := |a| + i;
    assert t[j..j + 7] == s[i..i + 7];
    assert t[j + 7..] == s[i + 7..] + b;
    PrefixLenAppend(s[i + 7..], b, IsSpace);
    assert t[j + 7 + IndentLen(s[i + 7..])] == s[i + 7 + IndentLen(s[i + 7..])];
  }

  /** Where the search for `jsonify(` succeeds, the word, the run and '(' are there. */
  lemma OpenWitness(s: string) returns (i: nat)
    requires Found(s, JsonifyOpen)
    ensures OpensAt(s, i)
  {
    i := FoundWitness(s, JsonifyOpen);
    OpenParts(s, i);
  }

  lemma FoundFromOpen(s: string, i: nat)
    requires OpensAt(s, i)
    ensures Found(s, JsonifyOpen)
  {
    OpenFromParts(s, i);
    FoundAt(s, i, JsonifyOpen);
  }

  /** `jsonify(` in one line is `jsonify(` in the joined lines. */
  lemma OpenInJoin(xs: seq<string>, k: nat, i: nat) returns (j: nat)
    requires k < |xs| && OpensAt(xs[k], i)
    ensures OpensAt(Join(xs), j)
  {
    var a, b := Join(xs[..k]), Join(xs[k + 1..]);
    assert Join(xs) == a + xs[k] + b by {
      assert xs == xs[..k] + xs[k..];
      JoinAppend(xs[..k], xs[k..]);
      assert xs[k..][1..] == xs[k + 1..];
    }
    OpenShift(a, xs[k], b, i);
    j := |a| + i;
  }

  /** A captured call always holds `jsonify(`: the search of the whole call text cannot fail
      once the capture loop has found the line where the count balances. */
  lemma CapturedCallHasOpen(lines: seq<string>, end: nat, rs: nat, re: nat)
    requires rs <= re < end <= |lines| && CaptureEnd(lines[..end], rs, rs, CountLine) == Some(re)
    ensures Found(CallText(lines, rs, re), JsonifyOpen)
  {
    assert Balanced(lines[..end], rs, re, CountLine);
    StartedCallHasOpen(lines[..end], lines, rs, re);
  }

  /** A call whose capture has started holds `jsonify(` on one of its lines. */
  lemma StartedCallHasOpen(block: seq<string>, lines: seq<string>, rs: nat, re: nat)
    requires rs <= re < |block| <= |lines| && block == lines[..|block|]
    requires CaptureState(block, rs, re + 1, CountLine).0
    ensures Found(CallText(lines, rs, re), JsonifyOpen)
  {
    var k := StartedHasOpen(block, rs, re + 1);
    assert block[k] == lines[k];
    OpenEndFound(lines[k]);
    LineOpenInCall(lines, rs, re, k);
  }

  /** A line of the call that holds `jsonify(` makes the search of the call text succeed. */
  lemma LineOpenInCall(lines: seq<string>, rs: nat, re: nat, k: nat)
    requires rs <= k <= re < |lines| && Found(lines[k], JsonifyOpen)
    ensures Found(CallText(lines, rs, re), JsonifyOpen)
  {
    var call := lines[rs..re + 1];
    assert call[k - rs] == lines[k];
    var i := OpenWitness(lines[k]);
    var j := OpenInJoin(call, k - rs, i);
    FoundFromOpen(Join(call), j);
  }

  /** The nesting level of the matching-parenthesis scan at `pos`, having started at level 1 just
      after the opening parenthesis at `start`. */
  function Level(s: string, start: nat, pos: nat): int
    requires start <= pos <= |s|
  {
    1 + Balance(s[start..pos])
  }

  lemma LevelStep(s: string, start: nat, pos: nat)
    requires start <= pos < |s|
    ensures Level(s, start, pos + 1) ==
      Level(s, start, pos) + (if s[pos] == '(' then 1 else if s[pos] == ')' then -1 else 0)
  {
    assert s[start..pos + 1] == s[start..pos] + [s[pos]];
    BalanceAppend(s[start..pos], [s[pos]]);
    assert [s[pos]][1..] == [];
    assert CountChar([s[pos]], '(') == if s[pos] == '(' then 1 else 0;
    assert CountChar([s[pos]], ')') == if s[pos] == ')' then 1 else 0;
  }

  /** The end of the scan: the first position from `pos` on where the level is 0 (just after the
      matching ')'), if any. */
  function CloseFrom(s: string, start: nat, pos: nat): (r: Option<nat>)
    requires start <= pos <= |s|
    ensures r.Some? ==> pos <= r.value <= |s| && start < r.value
    decreases |s| - pos
  {
    assert s[start..start] == [];
    if Level(s, start, pos) == 0 then Some(pos)
    else if pos == |s| then None
    else CloseFrom(s, start, pos + 1)
  }

  /** The scan stops at the first position from `pos` on where the level is 0. */
  lemma {:induction false} CloseFromMeaning(s: string, start: nat, pos: nat)
    requires start <= pos <= |s|
    ensures var r := CloseFrom(s, start, pos);
      r.Some? ==> Level(s, start, r.value) == 0 && forall q :: pos <= q < r.value ==> Level(s, start, q) != 0
    ensures var r := CloseFrom(s, start, pos);
      r.None? ==> forall q :: pos <= q <= |s| ==> Level(s, start, q) != 0
    decreases |s| - pos
  {
    if Level(s, start, pos) != 0 && pos < |s| {
      CloseFromMeaning(s, start, pos + 1);
    }
  }

  /** The scan ends just after a ')', and inside it the level never drops to 0: the closing
      parenthesis found matches the opening one. */
  lemma {:induction false} CloseIsMatchingParen(s: string, start: nat, p: nat)
    requires start <= |s| && CloseFrom(s, start, start) == Some(p)
    ensures start < p && s[p - 1] == ')'
    ensures forall q :: start <= q < p ==> Level(s, start, q) > 0
  {
    CloseFromMeaning(s, start, start);
    assert s[start..start] == [];
    assert Level(s, start, start) == 1;
    LevelPositive(s, start, p);
    LevelStep(s, start, p - 1);
  }

  lemma {:induction false} LevelPositive(s: string, start: nat, p: nat)
    requires start <= p <= |s|
    requires forall q :: start <= q < p ==> Level(s, start, q) != 0
    ensures forall q :: start <= q < p ==> Level(s, start, q) > 0
    decreases p - start
  {
    if p > start {
      LevelPositive(s, start, p - 1);
      if p - 1 > start {
        LevelStep(s, start, p - 2);
      } else {
        assert s[start..start] == [];
      }
    }
  }

  /** The argument the script accepts, once stripped: a dict literal (starts with '{' and ends
      with '}') or a single identifier. The script strips the argument again before testing
      its first and last character, which changes nothing (`StrippedDictTest`). */
  predicate Accepted(expr: string) {
    (StartsWith(expr, "{") && EndsWith(expr, "}")) || IsIdentifier(expr)
  }

  lemma StrippedDictTest(inner: string)
    ensures var expr := Strip(inner);
      StartsWith(LStrip(expr), "{") && EndsWith(RStrip(expr), "}") <==>
      StartsWith(expr, "{") && EndsWith(expr, "}")
  {
    StripIsStripped(inner);
  }

  /** Where the script's searches end: an exit code, or the def line, the end of its block,
      the first and last line of the return call and the jsonify argument. */
  datatype Cut = NoCut(code: int) | Cut(def: nat, end: nat, first: nat, last: nat, expr: string)

  /** The text of the return call: the lines from its first to its last. */
  function CallText(lines: seq<string>, first: nat, last: nat): string
    requires first <= last < |lines|
  {
    Join(lines[first..last + 1])
  }

  /** What the matching-parenthesis scan gives on a call text: no `jsonify(` at all, no
      matching ')', or the text between the two. */
  datatype Between = NoOpen | NoClose | Inner(text: string)

  function CallInner(callText: string): (r: Between)
    ensures r.NoOpen? <==> OpenEnd(callText).None?
  {
    match OpenEnd(callText)
    case None => NoOpen
    case Some(start) => InnerFrom(callText, start)
  }

  /** The scan from just after the '(' at `start - 1`. */
  function InnerFrom(callText: string, start: nat): (r: Between)
    requires start <= |callText|
    ensures !r.NoOpen?
  {
    match CloseFrom(callText, start, start)
    case None => NoClose
    case Some(q) => Inner(callText[start..q - 1])
  }

  /** When the first `jsonify(` ends at `start` and the level first returns to 0 at `q`, the
      text found lies exactly between that '(' and the ')' before `q`, and inside it the level
      stays positive: the ')' matches the '('. */
  lemma CallInnerMeaning(callText: string, start: nat, q: nat)
    requires OpenEnd(callText) == Some(start) && CloseFrom(callText, start, start) == Some(q)
    ensures start < q && callText[start - 1] == '(' && callText[q - 1] == ')'
    ensures forall k :: start <= k < q ==> Level(callText, start, k) > 0
    ensures CallInner(callText) == Inner(callText[start..q - 1])
  {
    OpenParen(callText, start);
    CallInnerIs(callText, start, q);
    CloseIsMatchingParen(callText, start, q);
  }

  lemma OpenParen(callText: string, start: nat)
    requires OpenEnd(callText) == Some(start)
    ensures 1 <= start <= |callText| && callText[start - 1] == '('
  {
  }

  lemma CallInnerIs(callText: string, start: nat, q: nat)
    requires OpenEnd(callText) == Some(start) && CloseFrom(callText, start, start) == Some(q)
    ensures CallInner(callText) == Inner(callText[start..q - 1])
  {
    assert CallInner(callText) == InnerFrom(callText, start);
  }

  /** The argument found in the call text, or the exit code of the step that failed. */
  function ArgumentOf(callText: string): (r: Cut)
    ensures r.NoCut? ==> 6 <= r.code <= 8
    ensures r.NoCut? && r.code == 6 <==> !Found(callText, JsonifyOpen)
    ensures r.Cut? ==> Accepted(r.expr)
  {
    OpenEndFound(callText);
    match CallInner(callText)
    case NoOpen => NoCut(6)
    case NoClose => NoCut(7)
    case Inner(text) => Accept(text)
  }

  /** The text between the parentheses, stripped, when the script accepts it. */
  function Accept(inner: string): (r: Cut)
    ensures r.NoCut? ==> r.code == 8
    ensures r.Cut? ==> Accepted(r.expr)
  {
    var expr := Strip(inner);
    if Accepted(expr) then Cut(0, 0, 0, 0, expr) else NoCut(8)
  }

  /** The searches of the script for the line tests it is given: the first decorator line, the
      first def line among the next 49 lines, the end of that function's block, the last
      return line of the block, the line where its parentheses balance, and the argument. */
  function LocateWith(lines: seq<string>, isDeco: string -> bool, isDef: string -> bool,
                      isRet: string -> bool): (c: Cut)
    ensures c.Cut? ==> c.def <= c.first <= c.last < c.end <= |lines|
  {
    var ri := FirstIn(lines, 0, |lines|, isDeco);
    if ri == |lines| then NoCut(2)
    else
      var hi := if ri + 50 < |lines| then ri + 50 else |lines|;
      var di := FirstIn(lines, ri + 1, hi, isDef);
      if di == hi then NoCut(3)
      else
        var end := BlockEnd(lines, di);
        match LastIn(lines, di, end, isRet)
        case None => NoCut(4)
        case Some(rs) => CallCut(lines, di, end, rs)
  }

  /** The analysis of the return call that starts at line `rs` of the block [di, end): the line
      where its parentheses balance, then its argument. */
  function CallCut(lines: seq<string>, di: nat, end: nat, rs: nat): (c: Cut)
    requires di <= rs < end <= |lines|
    ensures c.NoCut? ==> 5 <= c.code <= 8
    ensures c.Cut? ==> c.def == di && c.end == end && c.first == rs && rs <= c.last < end
  {
    match CaptureEnd(lines[..end], rs, rs, CountLine)
    case None => NoCut(5)
    case Some(re) =>
      match ArgumentOf(CallText(lines, rs, re))
      case NoCut(code) => NoCut(code)
      case Cut(_, _, _, _, expr) => Cut(di, end, rs, re, expr)
  }

  /** The exit codes of the searches: exit 2 exactly when no line is a decorator. */
  lemma LocateExits(lines: seq<string>, isDeco: string -> bool, isDef: string -> bool,
                    isRet: string -> bool)
    ensures var c := LocateWith(lines, isDeco, isDef, isRet);
      c.NoCut? ==> 2 <= c.code <= 8
    ensures var c := LocateWith(lines, isDeco, isDef, isRet);
      c.NoCut? && c.code == 2 <==> forall k :: 0 <= k < |lines| ==> !isDeco(lines[k])
  {
    var ri := FirstIn(lines, 0, |lines|, isDeco);
    if ri == |lines| {
      FirstInNone(lines, 0, |lines|, isDeco);
    }
  }

  /** What the line searches find: a def line within 49 lines of the first decorator, with no
      def line between them, the end of its block, and the last return line of the block. */
  lemma LocateLines(lines: seq<string>, isDeco: string -> bool, isDef: string -> bool,
                    isRet: string -> bool)
    requires LocateWith(lines, isDeco, isDef, isRet).Cut?
    ensures var c := LocateWith(lines, isDeco, isDef, isRet);
      var ri := FirstIn(lines, 0, |lines|, isDeco);
      ri < c.def < ri + 50 && isDeco(lines[ri]) && isDef(lines[c.def])
      && (forall k :: ri < k < c.def ==> !isDef(lines[k]))
    ensures var c := LocateWith(lines, isDeco, isDef, isRet);
      c.end == BlockEnd(lines, c.def) && isRet(lines[c.first])
      && (forall k :: c.first < k < c.end ==> !isRet(lines[k]))
  {
  }

  /** What the call analysis finds: the last line of the call is the first line after which
      its parentheses balance, and the argument is the accepted one found in the call text. */
  lemma CallCutMeaning(lines: seq<string>, di: nat, end: nat, rs: nat)
    requires di <= rs < end <= |lines| && CallCut(lines, di, end, rs).Cut?
    ensures var c := CallCut(lines, di, end, rs);
      CaptureEnd(lines[..end], rs, rs, CountLine) == Some(c.last)
      && ArgumentOf(CallText(lines, rs, c.last)) == Cut(0, 0, 0, 0, c.expr) && Accepted(c.expr)
  {
  }

  /** Exit 6 ("jsonify( not found in the captured return") can never happen: the captured
      call always holds the `jsonify(` that started the capture. */
  lemma CallCutNeverMissesOpen(lines: seq<string>, di: nat, end: nat, rs: nat)
    requires di <= rs < end <= |lines|
    ensures CallCut(lines, di, end, rs) != NoCut(6)
  {
    match CaptureEnd(lines[..end], rs, rs, CountLine)
    case None =>
    case Some(re) =>
      CapturedCallHasOpen(lines, end, rs, re);
  }

  lemma LocateNeverMissesOpen(lines: seq<string>, isDeco: string -> bool, isDef: string -> bool,
                              isRet: string -> bool)
    ensures LocateWith(lines, isDeco, isDef, isRet) != NoCut(6)
  {
    var ri := FirstIn(lines, 0, |lines|, isDeco);
    if ri < |lines| {
      var hi := if ri + 50 < |lines| then ri + 50 else |lines|;
      var di := FirstIn(lines, ri + 1, hi, isDef);
      if di < hi {
        var end := BlockEnd(lines, di);
        match LastIn(lines, di, end, isRet)
        case None =>
        case Some(rs) => CallCutNeverMissesOpen(lines, di, end, rs);
      }
    }
  }

  function Locate(lines: seq<string>): Cut {
    LocateWith(lines, JobStatusRcWins.IsJobDecoratorP(), MatchesP(JobStatusRcWins.DefLinePattern),
               IsReturnJsonifyP())
  }

  /** The first replacement line, which carries the marker. */
  const Head := "# " + Marker + ": rc file wins over stale 'running' state\n"

  /** The 22 enrichment lines between `resp = <argument>` and the final return (a line's own
      indentation is written apart from its text). */
  function EnrichLines(): seq<string> {
    [
      "try:\n",
      "    " + "jobs_dir = Path('cache/jobs')\n",
      "    " + "rc_path = jobs_dir / f\"{job_id}.rc\"\n",
      "    " + "j = resp.get('job') if isinstance(resp, dict) else None\n",
      "    " + "if rc_path.exists() and isinstance(j, dict):\n",
      "        " + "rc_txt = rc_path.read_text(encoding='utf-8', errors='ignore').strip()\n",
      "        " + "try:\n",
      "            " + "rc_val = int(rc_txt)\n",
      "        " + "except Exception:\n",
      "            " + "rc_val = None\n",
      "        " + "j['rc'] = rc_val\n",
      "        " + "j['status'] = 'success' if rc_val == 0 else 'failed'\n",
      "        " + "j['done'] = True\n",
      "    " + "elif isinstance(j, dict):\n",
      "        " + "pid = j.get('pid')\n",
      "        " + "if isinstance(pid, int) and Path(f\"/proc/{pid}\").exists():\n",
      "            " + "j['status'] = 'running'\n",
      "        " + "elif j.get('status') == 'running':\n",
      "            " + "j['status'] = 'stale'\n",
      "except Exception as _e:\n",
      "    " + "if isinstance(resp, dict):\n",
      "        " + "resp.setdefault('status_note', f\"status_enrich_error: {_e}\")\n"
    ]
  }

  /** The replacement of the return call, indented like its first line. */
  function Replacement(indent: string, expr: string, enrich: seq<string>): seq<string> {
    IndentAll(indent, [Head, "resp = " + expr + "\n"] + enrich + ["return jsonify(resp)\n"])
  }

  /** The script with `enrich` as the enrichment lines: exit 0 when the marker is already in the
      text; otherwise the searches, and the return call replaced. */
  function PatchWith(lines: seq<string>, enrich: seq<string>): Outcome<seq<string>> {
    if Contains(Join(lines), Marker) then Exit(0)
    else
      var c := Locate(lines);
      if c.NoCut? then Exit(c.code) else Write(Rewrite(lines, c, enrich))
  }

  /** The lines from the first to the last of the return call replaced; every other line keeps
      its place and order. */
  function Rewrite(lines: seq<string>, c: Cut, enrich: seq<string>): (r: seq<string>)
    requires c.Cut? && c.first <= c.last < |lines|
    ensures var n := |Replacement(Indent(lines[c.first]), c.expr, enrich)|;
      |r| == |lines| - (c.last + 1 - c.first) + n
    ensures var n := |Replacement(Indent(lines[c.first]), c.expr, enrich)|;
      r[..c.first] == lines[..c.first] && r[c.first + n..] == lines[c.last + 1..]
    ensures r[c.first..c.first + |Replacement(Indent(lines[c.first]), c.expr, enrich)|]
      == Replacement(Indent(lines[c.first]), c.expr, enrich)
  {
    Splice(lines, c.first, c.last + 1, Replacement(Indent(lines[c.first]), c.expr, enrich))
  }

  /** `patch-job-status-rc-wins-v2.py` as written. */
  function Patch(lines: seq<string>): Outcome<seq<string>> {
    PatchWith(lines, EnrichLines())
  }

  /** The shape of the replacement: the marker line, `resp = <argument>`, the enrichment and
      `return jsonify(resp)`, each with the indentation of the original return line. */
  lemma ReplacementShape(indent: string, expr: string, enrich: seq<string>)
    ensures var r := Replacement(indent, expr, enrich);
      |r| == |enrich| + 3 && Contains(r[0], Marker)
      && r[1] == indent + "resp = " + expr + "\n"
      && r[|r| - 1] == indent + "return jsonify(resp)\n"
  {
    var body := [Head, "resp = " + expr + "\n"] + enrich + ["return jsonify(resp)\n"];
    assert body[0] == Head && body[1] == "resp = " + expr + "\n";
    assert body[|body| - 1] == "return jsonify(resp)\n";
    assert Marked(body, Marker) by {
      assert Head == ("# " + Marker) + ": rc file wins over stale 'running' state\n";
    }
    MarkedLine(indent, body, Marker);
  }

  /** What a write means: the marker was absent, the searches found the call, and the lines
      from its first to its last were replaced; every other line keeps its place and order. */
  lemma PatchReplaces(lines: seq<string>, enrich: seq<string>, out: seq<string>) returns (c: Cut)
    requires PatchWith(lines, enrich) == Write(out)
    ensures c == Locate(lines) && c.Cut?
    ensures !Contains(Join(lines), Marker)
    ensures out == Rewrite(lines, c, enrich)
  {
    c := Locate(lines);
  }

  /** A second run finds the marker in the first replacement line and exits 0. */
  lemma PatchRerun(lines: seq<string>, enrich: seq<string>, out: seq<string>)
    requires PatchWith(lines, enrich) == Write(out)
    ensures PatchWith(out, enrich) == Exit(0)
  {
    var c := PatchReplaces(lines, enrich, out);
    var r := Replacement(Indent(lines[c.first]), c.expr, enrich);
    ReplacementShape(Indent(lines[c.first]), c.expr, enrich);
    assert out[c.first] == r[0];
    JoinHasLine(out, c.first, Marker);
  }

  /** The capture loop: `started` and `paren` updated line by line until the count balances. */
  method CaptureRun(block: seq<string>, from: nat, count: LineCount) returns (r: Option<nat>)
    requires from <= |block|
    ensures r == CaptureEnd(block, from, from, count)
  {
    var started := false;
    var paren := 0;
    var idx := from;
    while idx < |block|
      invariant from <= idx <= |block|
      invariant (started, paren) == CaptureState(block, from, idx, count)
      invariant CaptureEnd(block, from, from, count) == CaptureEnd(block, from, idx, count)
    {
      var st := count(started, paren, block[idx]);
      CaptureStep(block, from, idx, started, paren, st.0, st.1, count);
      started, paren := st.0, st.1;
      if started && paren <= 0 {
        return Some(idx);
      }
      idx := idx + 1;
    }
    return None;
  }

  /** One step of the capture loop, stated on the loop's own variables. */
  lemma CaptureStep(block: seq<string>, from: nat, idx: nat, started: bool, paren: int, started': bool, paren': int,
                     count: LineCount)
    requires from <= idx < |block| && (started, paren) == CaptureState(block, from, idx, count)
    requires (started', paren') == count(started, paren, block[idx])
    ensures (started', paren') == CaptureState(block, from, idx + 1, count)
    ensures started' && paren' <= 0 ==> CaptureEnd(block, from, idx, count) == Some(idx)
    ensures !(started' && paren' <= 0) ==> CaptureEnd(block, from, idx, count) == CaptureEnd(block, from, idx + 1, count)
  {
  }

  /** One line of the capture loop. */
  method CountLineRun(started: bool, paren: int, s: string) returns (started': bool, paren': int)
    ensures (started', paren') == CountLine(started, paren, s)
  {
    started', paren' := started, paren;
    if !started {
      var m := OpenEnd(s);
      if m.Some? {
        started' := true;
        paren' := paren + Balance(s[m.value - 1..]);
      }
    } else {
      paren' := paren + Balance(s);
    }
  }

  /** The matching-parenthesis scan: `level` and `pos` updated character by character. */
  method CloseRun(s: string, start: nat) returns (r: Option<nat>)
    requires start <= |s|
    ensures r == CloseFrom(s, start, start)
  {
    var level := 1;
    var pos := start;
    assert s[start..start] == [];
    while pos < |s| && level > 0
      invariant start <= pos <= |s|
      invariant level == Level(s, start, pos) && level >= 0
      invariant CloseFrom(s, start, start) == CloseFrom(s, start, pos)
    {
      LevelStep(s, start, pos);
      if s[pos] == '(' {
        level := level + 1;
      } else if s[pos] == ')' {
        level := level - 1;
      }
      pos := pos + 1;
    }
    if level != 0 {
      return None;
    }
    return Some(pos);
  }

  /** The script's loops, for the line tests it is given. */
  method LocateRun(lines: seq<string>, isDeco: string -> bool, isDef: string -> bool,
                   isRet: string -> bool) returns (c: Cut)
    ensures c == LocateWith(lines, isDeco, isDef, isRet)
  {
    var ri := FindFirst(lines, 0, |lines|, isDeco);
    if ri == |lines| {
      return NoCut(2);
    }
    var hi := if ri + 50 < |lines| then ri + 50 else |lines|;
    var di := FindFirst(lines, ri + 1, hi, isDef);
    if di == hi {
      return NoCut(3);
    }
    var end := ScanBlockEnd(lines, di);
    var rs := FindLast(lines, di, end, isRet);
    if rs.None? {
      return NoCut(4);
    }
    c := CallCutRun(lines, di, end, rs.value);
  }

  method CallCutRun(lines: seq<string>, di: nat, end: nat, rs: nat) returns (c: Cut)
    requires di <= rs < end <= |lines|
    ensures c == CallCut(lines, di, end, rs)
  {
    var re := CaptureRun(lines[..end], rs, CountLine);
    if re.None? {
      return NoCut(5);
    }
    var a := ArgumentRun(CallText(lines, rs, re.value));
    match a
    case NoCut(code) =>
      c := NoCut(code);
    case Cut(_, _, _, _, expr) =>
      c := Cut(di, end, rs, re.value, expr);
  }

  method ArgumentRun(callText: string) returns (c: Cut)
    ensures c == ArgumentOf(callText)
  {
    var b := CallInnerRun(callText);
    match b
    case NoOpen =>
      c := NoCut(6);
    case NoClose =>
      c := NoCut(7);
    case Inner(text) =>
      c := Accept(text);
  }

  /** The search for `jsonify(` and the matching-parenthesis scan. */
  method CallInnerRun(callText: string) returns (r: Between)
    ensures r == CallInner(callText)
  {
    var o := OpenEnd(callText);
    if o.None? {
      return NoOpen;
    }
    r := InnerFromRun(callText, o.value);
  }

  /** The matching-parenthesis scan from just after the '('. */
  method InnerFromRun(callText: string, start: nat) returns (r: Between)
    requires start <= |callText|
    ensures r == InnerFrom(callText, start)
  {
    var p := CloseRun(callText, start);
    match p
    case None =>
      r := NoClose;
    case Some(q) =>
      r := Inner(callText[start..q - 1]);
  }

  method PatchRun(lines: seq<string>, enrich: seq<string>) returns (r: Outcome<seq<string>>)
    ensures r == PatchWith(lines, enrich)
  {
    if Contains(Join(lines), Marker) {
      return Exit(0);
    }
    var c := LocateRun(lines, JobStatusRcWins.IsJobDecoratorP(),
                       MatchesP(JobStatusRcWins.DefLinePattern), IsReturnJsonifyP());
    if c.NoCut? {
      return Exit(c.code);
    }
    r := Write(Rewrite(lines, c, enrich));
  }
}
