// What the two versioning scripts share: the line tests they use to find the /api/health
// handler and the `version_info()` helper, and the behaviour of the helper they inject
// (scripts/patch-health-versioning.py:35-75 and scripts/patch_versioning_safe.py:12-45 inject
// the same logic). The helper's git calls are inputs: each is an exception or a return code
// with its standard output.
module Versioning {
  import opened Common
  import opened Text
  import opened LinePattern

  /** `'` or `"` */
  predicate IsQuote(c: char) { c == '"' || c == '\'' }

  /** The text after `@app.get(` or `@app.route(`: `\s*['"]/api/health['"]`. */
  predicate QuotedHealth(u: string) {
    var v := LStrip(u);
    |v| >= 13 && IsQuote(v[0]) && v[1..12] == "/api/health" && IsQuote(v[12])
  }

  /** `^\s*@app\.(get|route)\(\s*['"]/api/health['"]`, searched in one line. The two quotes
      are chosen independently, as in the pattern. */
  predicate IsHealthDecorator(l: string) {
    var t := LStrip(l);
    || (StartsWith(t, "@app.get(") && QuotedHealth(t[9..]))
    || (StartsWith(t, "@app.route(") && QuotedHealth(t[11..]))
  }

  /** `^\s*def\s+version_info\s*\(\)\s*:\s*$` */
  const VersionInfoDefPattern: seq<Piece> :=
    [Ws(0), Lit("def"), Ws(1), Lit("version_info"), Ws(0), Lit("()"), Ws(0), Lit(":"), Ws(0), End]

  predicate IsVersionInfoDef(l: string) {
    Matches(l, VersionInfoDefPattern)
  }

  /** `^\s*def\s+\w+\s*\(`: the head of a def signature. */
  const DefOpen: seq<Piece> := [Ws(0), Lit("def"), Ws(1), Word, Ws(0), Lit("(")]

  /** `\s*:\s*$` after the closing parenthesis. */
  predicate PlainTail(r: string) {
    var t := LStrip(r);
    t != [] && t[0] == ':' && IsBlank(t[1..])
  }

  /** `\s*->\s*[^:]+\s*:\s*$` after the closing parenthesis: an arrow, a non-empty annotation
      without a colon, then the colon and nothing but whitespace. */
  predicate AnnotatedTail(r: string) {
    var t := LStrip(r);
    StartsWith(t, "->") &&
      var u := t[2..];
      var a := BeforeFirst(u, ':');
      |a| >= 1 && |a| < |u| && IsBlank(u[|a| + 1..])
  }

  /** `^\s*def\s+\w+\s*\(.*\)\s*:\s*$`, or with `annotated` the variant that also allows
      `(?:->\s*[^:]+)?` before the colon. The `.*` backtracks, so any later `)` of the line may
      close the parameter list. */
  predicate IsDefSignature(l: string, annotated: bool) {
    match MatchAt(l, 0, DefOpen)
    case None => false
    case Some(p) =>
      exists j :: p <= j < |l| && l[j] == ')' && '\n' !in l[p..j] &&
        (PlainTail(l[j + 1..]) || (annotated && AnnotatedTail(l[j + 1..])))
  }

  /** A def line the plain pattern accepts is accepted by the annotated one too. */
  lemma PlainDefIsAnnotatedDef(l: string)
    requires IsDefSignature(l, false)
    ensures IsDefSignature(l, true)
  {
  }

  // ---- the injected helper ----

  /** One `_git(args)` call: the subprocess raised, or it finished with a return code. */
  datatype GitRun = Raised | Finished(returncode: int, stdout: string)

  /** `_git`: None on an exception or a non-zero return code, otherwise the stripped output, or
      None when that is empty. */
  function GitValue(g: GitRun): (r: Option<string>)
    ensures r.Some? ==> r.value != ""
    ensures r.Some? <==> g.Finished? && g.returncode == 0 && Strip(g.stdout) != ""
  {
    match g
    case Raised => None
    case Finished(code, out) =>
      if code != 0 then None
      else
        var s := Strip(out);
        if s == "" then None else Some(s)
  }

  /** The dictionary `version_info()` returns. */
  datatype VersionInfo = VersionInfo(version: string, describe: Option<string>, commit: Option<string>,
                                     dirty: bool, semver: Option<string>, source: string)

  /** Python truthiness of an optional string: present and non-empty. */
  predicate IsSet(v: Option<string>) {
    v.Some? && v.value != ""
  }

  /** `a or b or ... or last` over optional strings. */
  function FirstSet(cands: seq<Option<string>>, last: string): string
    decreases |cands|
  {
    if cands == [] then last
    else if IsSet(cands[0]) then cands[0].value
    else FirstSet(cands[1..], last)
  }

  /** FirstSet picks the first set candidate, every earlier one being unset, and falls back to
      `last` only when none is set. */
  lemma {:induction false} FirstSetMeaning(cands: seq<Option<string>>, last: string)
    ensures (forall k :: 0 <= k < |cands| ==> !IsSet(cands[k])) ==> FirstSet(cands, last) == last
    ensures (exists k :: 0 <= k < |cands| && IsSet(cands[k])) ==>
      exists k :: 0 <= k < |cands| && IsSet(cands[k]) && FirstSet(cands, last) == cands[k].value &&
        forall j :: 0 <= j < k ==> !IsSet(cands[j])
    decreases |cands|
  {
    if cands != [] && !IsSet(cands[0]) {
      FirstSetMeaning(cands[1..], last);
      assert forall k :: 1 <= k < |cands| ==> cands[1..][k - 1] == cands[k];
      if exists k :: 0 <= k < |cands| && IsSet(cands[k]) {
        var k' :| 0 <= k' < |cands| - 1 && IsSet(cands[1..][k']) && FirstSet(cands[1..], last) == cands[1..][k'].value &&
          forall j :: 0 <= j < k' ==> !IsSet(cands[1..][j]);
        assert FirstSet(cands, last) == cands[k' + 1].value;
      }
    }
  }

  /** The helper's body: version from the environment variable, else `git describe`, else the
      commit, else "unknown"; the source says whether the environment variable supplied it;
      dirty when `git status --porcelain` prints anything; semver from the describe output. */
  function Info(env: Option<string>, describeRun: GitRun, commitRun: GitRun, statusRun: GitRun): VersionInfo {
    var describe := GitValue(describeRun);
    var commit := GitValue(commitRun);
    var st := match GitValue(statusRun) case Some(s) => s case None => "";
    var semver := if IsSet(describe) then Semver(describe.value) else None;
    var version :=
      if IsSet(env) then env.value
      else if IsSet(describe) then describe.value
      else if IsSet(commit) then commit.value
      else "unknown";
    var source := if IsSet(env) then "env" else "git";
    VersionInfo(version, describe, commit, Strip(st) != "", semver, source)
  }

  /** The reported version: the environment variable, else the describe output, else the
      commit, else "unknown", as Python's `or` chain picks it. */
  lemma InfoVersion(env: Option<string>, describeRun: GitRun, commitRun: GitRun, statusRun: GitRun)
    ensures Info(env, describeRun, commitRun, statusRun).version
      == FirstSet([env, GitValue(describeRun), GitValue(commitRun)], "unknown")
  {
    var cands := [env, GitValue(describeRun), GitValue(commitRun)];
    assert cands[1..] == [GitValue(describeRun), GitValue(commitRun)];
    assert cands[1..][1..] == [GitValue(commitRun)];
    assert cands[1..][1..][1..] == [];
    var d, c := GitValue(describeRun), GitValue(commitRun);
    assert FirstSet(cands[1..][1..], "unknown") == if IsSet(c) then c.value else "unknown";
    assert FirstSet(cands[1..], "unknown") == if IsSet(d) then d.value else FirstSet(cands[1..][1..], "unknown");
    assert FirstSet(cands, "unknown") == if IsSet(env) then env.value else FirstSet(cands[1..], "unknown");
  }

  /** The source is "env" exactly when the environment variable is set and not empty, and then
      the version is its value; otherwise the source is "git". The version is never empty. */
  lemma InfoSource(env: Option<string>, describeRun: GitRun, commitRun: GitRun, statusRun: GitRun)
    ensures var vi := Info(env, describeRun, commitRun, statusRun);
      vi.version != "" && (vi.source == "env" <==> IsSet(env)) && (vi.source == "env" || vi.source == "git")
    ensures var vi := Info(env, describeRun, commitRun, statusRun);
      vi.source == "env" ==> vi.version == env.value
  {
  }

  /** Dirty exactly when `git status --porcelain` succeeds with some output. */
  lemma InfoDirty(env: Option<string>, describeRun: GitRun, commitRun: GitRun, statusRun: GitRun)
    ensures Info(env, describeRun, commitRun, statusRun).dirty <==> GitValue(statusRun).Some?
  {
    match GitValue(statusRun) {
      case Some(st) => StripIsStripped(st);
      case None =>
    }
  }

  /** A semver is reported only with a describe output that starts with it, and it is a normal
      version. */
  lemma InfoSemver(env: Option<string>, describeRun: GitRun, commitRun: GitRun, statusRun: GitRun)
    ensures var vi := Info(env, describeRun, commitRun, statusRun);
      vi.semver.Some? ==> vi.describe.Some? && StartsWith(vi.describe.value, vi.semver.value) && IsNormalVersion(vi.semver.value)
  {
    var describe := GitValue(describeRun);
    if IsSet(describe) && Semver(describe.value).Some? {
      SemverSound(describe.value);
    }
  }

  // ---- `re.match(r"^(v\d+\.\d+\.\d+)", describe)` ----

  predicate AllDigits(s: string) {
    forall i :: 0 <= i < |s| ==> IsDigit(s[i])
  }

  /** v is `v` X `.` Y `.` Z with X = v[1..i], Y = v[i+1..j], Z = v[j+1..] non-empty runs of
      digits: the normal version form MAJOR.MINOR.PATCH of Semantic Versioning 2.0.0, section 2,
      behind a `v` (without that section's ban on leading zeroes). */
  predicate NormalVersionAt(v: string, i: nat, j: nat) {
    && 1 < i && i + 1 < j && j + 1 < |v|
    && v[0] == 'v' && v[i] == '.' && v[j] == '.'
    && AllDigits(v[1..i]) && AllDigits(v[i + 1..j]) && AllDigits(v[j + 1..])
  }

  predicate IsNormalVersion(v: string) {
    exists i: nat, j: nat :: i < |v| && j < |v| && NormalVersionAt(v, i, j)
  }

  /** The end of the digit run that starts at lo. */
  function DigitsEnd(d: string, lo: nat): (r: nat)
    requires lo <= |d|
    ensures lo <= r <= |d| && AllDigits(d[lo..r]) && (r < |d| ==> !IsDigit(d[r]))
  {
    DigitRun(d, lo);
    lo + PrefixLen(d[lo..], IsDigit)
  }

  /** The matched group: a `v`, three maximal digit runs separated by dots. */
  function Semver(d: string): Option<string> {
    if !StartsWith(d, "v") then None
    else
      var a := DigitsEnd(d, 1);
      if a == 1 || a == |d| || d[a] != '.' then None
      else
        var b := DigitsEnd(d, a + 1);
        if b == a + 1 || b == |d| || d[b] != '.' then None
        else
          var c := DigitsEnd(d, b + 1);
          if c == b + 1 then None else Some(d[..c])
  }

  /** A run of p-characters ended by the end or by a non-p character has the run's length. */
  lemma PrefixLenIs(s: string, p: char -> bool, n: nat)
    requires n <= |s| && (forall i :: 0 <= i < n ==> p(s[i])) && (n < |s| ==> !p(s[n]))
    ensures PrefixLen(s, p) == n
  {
  }

  /** The digit run that starts at lo, read off the text. */
  lemma DigitRun(d: string, lo: nat)
    requires lo <= |d|
    ensures var c := lo + PrefixLen(d[lo..], IsDigit);
      c <= |d| && AllDigits(d[lo..c]) && (c < |d| ==> !IsDigit(d[c]))
  {
    var c := lo + PrefixLen(d[lo..], IsDigit);
    assert forall i :: 0 <= i < c - lo ==> d[lo..c][i] == d[lo..][i];
    if c < |d| {
      assert d[c] == d[lo..][c - lo];
    }
  }

  /** Digits of a prefix of the text are digits of the text. */
  lemma DigitsOfPrefix(d: string, c: nat, lo: nat, hi: nat)
    requires lo <= hi <= c <= |d| && AllDigits(d[lo..hi])
    ensures AllDigits(d[..c][lo..hi])
  {
    assert d[..c][lo..hi] == d[lo..hi];
  }

  /** What the match yields is a normal version at the start of the text, not followed by a
      further digit. */
  lemma SemverSound(d: string)
    requires Semver(d).Some?
    ensures var v := Semver(d).value;
      IsNormalVersion(v) && StartsWith(d, v) && (|v| == |d| || !IsDigit(d[|v|]))
  {
    var a := DigitsEnd(d, 1);
    var b := DigitsEnd(d, a + 1);
    var c := DigitsEnd(d, b + 1);
    var v := d[..c];
    assert v == Semver(d).value;
    DigitsOfPrefix(d, c, 1, a);
    DigitsOfPrefix(d, c, a + 1, b);
    DigitsOfPrefix(d, c, b + 1, c);
    assert v[b + 1..] == d[..c][b + 1..c];
    assert NormalVersionAt(v, a, b);
  }

  /** A run of digits ended by the end of the text or a non-digit is the run DigitsEnd finds. */
  lemma DigitsEndIs(d: string, lo: nat, hi: nat)
    requires lo <= hi <= |d| && AllDigits(d[lo..hi]) && (hi < |d| ==> !IsDigit(d[hi]))
    ensures DigitsEnd(d, lo) == hi
  {
    assert forall k :: 0 <= k < hi - lo ==> d[lo..][k] == d[lo..hi][k];
    if hi < |d| {
      assert d[lo..][hi - lo] == d[hi];
    }
    PrefixLenIs(d[lo..], IsDigit, hi - lo);
  }

  /** A normal version at the start of the text, not followed by a further digit, is what the
      match yields. */
  lemma SemverComplete(d: string, v: string, i: nat, j: nat)
    requires NormalVersionAt(v, i, j) && StartsWith(d, v) && (|v| == |d| || !IsDigit(d[|v|]))
    ensures Semver(d) == Some(v)
  {
    assert d[..|v|] == v;
    assert d[0] == 'v' && d[i] == '.' && d[j] == '.';
    DigitsOfStart(d, v, 1, i);
    DigitsOfStart(d, v, i + 1, j);
    DigitsOfStart(d, v, j + 1, |v|);
    DigitsEndIs(d, 1, i);
    DigitsEndIs(d, i + 1, j);
    DigitsEndIs(d, j + 1, |v|);
  }

  /** Digits of the start of the text are digits of the text. */
  lemma DigitsOfStart(d: string, v: string, lo: nat, hi: nat)
    requires lo <= hi <= |v| <= |d| && d[..|v|] == v && AllDigits(v[lo..hi])
    ensures AllDigits(d[lo..hi])
  {
    forall k | 0 <= k < hi - lo
      ensures IsDigit(d[lo..hi][k])
    {
      assert d[lo..hi][k] == d[..|v|][lo + k] == v[lo..hi][k];
    }
  }

  /** Both directions: the match yields v exactly when v is a normal version that starts the
      text and is not followed by a digit. */
  lemma SemverIff(d: string, v: string)
    ensures Semver(d) == Some(v) <==> IsNormalVersion(v) && StartsWith(d, v) && (|v| == |d| || !IsDigit(d[|v|]))
  {
    if Semver(d) == Some(v) {
      SemverSound(d);
    }
    if IsNormalVersion(v) && StartsWith(d, v) && (|v| == |d| || !IsDigit(d[|v|])) {
      var i: nat, j: nat :| i < |v| && j < |v| && NormalVersionAt(v, i, j);
      SemverComplete(d, v, i, j);
    }
  }

  /** Leading zeroes, which section 2 of Semantic Versioning 2.0.0 rules out, pass the match. */
  lemma SemverAcceptsLeadingZero()
    ensures Semver("v01.2.3-4-gabc") == Some("v01.2.3")
  {
    var d := "v01.2.3-4-gabc";
    var v := "v01.2.3";
    assert NormalVersionAt(v, 3, 5) by {
      assert v[1..3] == "01" && v[4..5] == "2" && v[6..] == "3";
    }
    assert d[..7] == v && d[7] == '-';
    SemverComplete(d, v, 3, 5);
  }
}
