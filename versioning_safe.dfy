// scripts/patch_versioning_safe.py: `patch_app_py` adds the `version_info()` helper to
// app/app.py when it is missing, then rewrites the /api/health handler (a `vi = version_info()`
// line after its def, a new `return jsonify({...})` with the version fields); `patch_static`
// repairs one broken string concatenation in static/index.html. The text is the file's content;
// reading and writing the files are left out.
module VersioningSafe {
  import opened Common
  import opened Text
  import opened LinePattern
  import opened Lines
  import opened AppLines
  import opened Versioning
  import opened JobStatusRcWinsV2

  // ---- the text as lines: `s.splitlines(True)` ----

  /** Line k as `splitlines(True)` yields it: not empty, a newline only as its last character,
      and a newline there unless it is the last line. */
  predicate IsLineAt(lines: seq<string>, k: nat)
    requires k < |lines|
  {
    var l := lines[k];
    l != "" && '\n' !in l[..|l| - 1] && (k + 1 < |lines| ==> l[|l| - 1] == '\n')
  }

  predicate IsSplit(lines: seq<string>) {
    forall k :: 0 <= k < |lines| ==> IsLineAt(lines, k)
  }

  /** `s.splitlines(True)`, with `\n` as the only line break: the pieces up to and including
      each newline, then the rest if it is not empty. */
  function SplitLines(s: string): (r: seq<string>)
    ensures Join(r) == s
    ensures IsSplit(r)
    decreases |s|
  {
    if s == "" then []
    else
      var n := |BeforeFirst(s, '\n')|;
      if n == |s| then [s]
      else
        var rest := SplitLines(s[n + 1..]);
        var r := [s[..n + 1]] + rest;
        assert r[1..] == rest;
        assert s == s[..n + 1] + s[n + 1..];
        assert forall k :: 1 <= k < |r| ==> IsLineAt(rest, k - 1) ==> IsLineAt(r, k);
        r
  }

  /** A line that ends with its only newline is cut right after it. */
  lemma BeforeFirstOfLine(a: string)
    requires a != "" && a[|a| - 1] == '\n' && '\n' !in a[..|a| - 1]
    ensures BeforeFirst(a, '\n') == a[..|a| - 1]
  {
    var r := BeforeFirst(a, '\n');
    assert forall i :: 0 <= i < |a| - 1 ==> a[..|a| - 1][i] == a[i];
  }

  /** Splitting joined lines gives the lines back: the partner of SplitLines's own
      `Join(SplitLines(s)) == s`. */
  lemma {:induction false} SplitJoin(lines: seq<string>)
    requires IsSplit(lines)
    ensures SplitLines(Join(lines)) == lines
    decreases |lines|
  {
    if lines != [] {
      var a, rest := lines[0], lines[1..];
      assert IsLineAt(lines, 0);
      SplitTail(lines);
      SplitJoin(rest);
      assert Join(lines) == a + Join(rest);
      assert lines == [a] + rest;
      if a[|a| - 1] == '\n' {
        SplitLinesAfterLine(a, Join(rest));
      } else {
        assert |lines| == 1 && rest == [];
        SplitLinesLastLine(a);
      }
    }
  }

  /** The lines after the first of a split are a split. */
  lemma SplitTail(lines: seq<string>)
    requires lines != [] && IsSplit(lines)
    ensures IsSplit(lines[1..])
  {
    forall k | 0 <= k < |lines| - 1
      ensures IsLineAt(lines[1..], k)
    {
      assert IsLineAt(lines, k + 1);
    }
  }

  /** A line ending with its only newline is cut off as the first piece. */
  lemma SplitLinesAfterLine(a: string, t: string)
    requires a != "" && a[|a| - 1] == '\n' && '\n' !in a[..|a| - 1]
    ensures SplitLines(a + t) == [a] + SplitLines(t)
  {
    var s := a + t;
    BeforeFirstOfLine(a);
    BeforeFirstAppend(a, t, '\n');
    assert s[..|a|] == a && s[|a|..] == t;
  }

  /** A last line without a newline is one piece. */
  lemma SplitLinesLastLine(a: string)
    requires a != "" && '\n' !in a[..|a| - 1] && a[|a| - 1] != '\n'
    ensures SplitLines(a) == [a]
  {
    forall i | 0 <= i < |a|
      ensures a[i] != '\n'
    {
      if i < |a| - 1 {
        assert a[..|a| - 1][i] == a[i];
      }
    }
    assert |BeforeFirst(a, '\n')| == |a|;
  }

  /** The text is the lines before k, line k, and the lines after it. */
  lemma JoinAround(lines: seq<string>, k: nat)
    requires k < |lines|
    ensures Join(lines) == Join(lines[..k]) + lines[k] + Join(lines[k + 1..])
  {
    assert lines == lines[..k] + lines[k..];
    JoinAppend(lines[..k], lines[k..]);
    assert lines[k..][1..] == lines[k + 1..];
  }

  // ---- step 1 (lines 11-55): the `version_info()` helper ----

  function VersionInfoDefP(): string -> bool {
    l => IsVersionInfoDef(l)
  }

  /** The inserted text: the helper function, after the newline that opens the raw string. */
  const HelperText: string :=
    "\n"
    + "def version_info():\n"
    + "    \"\"\"\n"
    + "    Versioning policy:\n"
    + "      - SemVer tags: vMAJOR.MINOR.PATCH\n"
    + "      - Build identity: git describe --tags --dirty --always\n"
    + "    \"\"\"\n"
    + "    import os, re, subprocess\n"
    + "\n"
    + "    def _git(args):\n"
    + "        try:\n"
    + "            r = subprocess.run([\"git\", \"-C\", BASE_DIR, *args], capture_output=True, text=True)\n"
    + "            if r.returncode != 0:\n"
    + "                return None\n"
    + "            out = (r.stdout or \"\").strip()\n"
    + "            return out or None\n"
    + "        except Exception:\n"
    + "            return None\n"
    + "\n"
    + "    describe = _git([\"describe\", \"--tags\", \"--dirty\", \"--always\"])\n"
    + "    commit = _git([\"rev-parse\", \"--short=12\", \"HEAD\"])\n"
    + "    st = (_git([\"status\", \"--porcelain\"]) or \"\")\n"
    + "    dirty = bool(st.strip())\n"
    + "\n"
    + "    semver = None\n"
    + "    if describe:\n"
    + "        m = re.match(r\"^(v\\d+\\.\\d+\\.\\d+)\", describe)\n"
    + "        if m:\n"
    + "            semver = m.group(1)\n"
    + "\n"
    + "    version = os.environ.get(\"JR_GOLDEN_SD_VERSION\") or describe or commit or \"unknown\"\n"
    + "    source = \"env\" if os.environ.get(\"JR_GOLDEN_SD_VERSION\") else \"git\"\n"
    + "    return {\"version\": version, \"describe\": describe, \"commit\": commit, \"dirty\": dirty, \"semver\": semver, \"source\": source}\n"

  /** `^BASE_DIR\s*=`: an assignment to BASE_DIR at column 0 (the `.*$` after it always
      matches, up to the end of the line). */
  const BaseDirAnchor: seq<Piece> := [Lit("BASE_DIR"), Ws(0), Lit("=")]

  /** `^app\s*=\s*Flask\(` at column 0. */
  const FlaskAnchor: seq<Piece> := [Lit("app"), Ws(0), Lit("="), Ws(0), Lit("Flask(")]

  /** The line the helper goes after, for given anchor tests: the first `isBase` line, else
      the first `isApp` line, else none. */
  function AnchorLineWith(lines: seq<string>, isBase: string -> bool, isApp: string -> bool): (r: Option<nat>)
    ensures r.Some? ==> r.value < |lines|
  {
    var b := FirstIn(lines, 0, |lines|, isBase);
    if b < |lines| then Some(b)
    else
      var f := FirstIn(lines, 0, |lines|, isApp);
      if f < |lines| then Some(f) else None
  }

  /** The first BASE_DIR line, else the first `app = Flask(` line. */
  function AnchorLine(lines: seq<string>): Option<nat> {
    AnchorLineWith(lines, MatchesP(BaseDirAnchor), MatchesP(FlaskAnchor))
  }

  /** Both anchors in their order of preference. */
  lemma AnchorLineMeaning(lines: seq<string>, isBase: string -> bool, isApp: string -> bool)
    ensures AnchorLineWith(lines, isBase, isApp).None? <==>
      forall k :: 0 <= k < |lines| ==> !isBase(lines[k]) && !isApp(lines[k])
    ensures (exists k :: 0 <= k < |lines| && isBase(lines[k])) ==>
      AnchorLineWith(lines, isBase, isApp).Some? && isBase(lines[AnchorLineWith(lines, isBase, isApp).value]) &&
      forall k :: 0 <= k < AnchorLineWith(lines, isBase, isApp).value ==> !isBase(lines[k])
    ensures (forall k :: 0 <= k < |lines| ==> !isBase(lines[k])) && AnchorLineWith(lines, isBase, isApp).Some? ==>
      isApp(lines[AnchorLineWith(lines, isBase, isApp).value]) &&
      forall k :: 0 <= k < AnchorLineWith(lines, isBase, isApp).value ==> !isApp(lines[k])
  {
    var b := FirstIn(lines, 0, |lines|, isBase);
    var f := FirstIn(lines, 0, |lines|, isApp);
  }

  /** The text up to `m.end()`: the lines before the anchor line and that line's content,
      without its newline. */
  function AnchorPrefix(lines: seq<string>, k: nat): string
    requires k < |lines|
  {
    Join(lines[..k]) + BeforeFirst(lines[k], '\n')
  }

  /** `m.end()` ends a line of the text: the anchor's prefix starts the text and is followed by
      a newline or by nothing. */
  lemma AnchorPrefixEndsLine(lines: seq<string>, k: nat)
    requires k < |lines| && IsSplit(lines)
    ensures AnchorPrefix(lines, k) <= Join(lines)
    ensures |AnchorPrefix(lines, k)| == |Join(lines)| || Join(lines)[|AnchorPrefix(lines, k)|] == '\n'
  {
    JoinAround(lines, k);
    var c := BeforeFirst(lines[k], '\n');
    var s := Join(lines);
    var before := AnchorPrefix(lines, k);
    assert s[..|before|] == before;
    if |c| < |lines[k]| {
      assert s[|before|] == lines[k][|c|];
    } else {
      assert IsLineAt(lines, k);
      assert lines[k] == lines[k][..|lines[k]| - 1] + [lines[k][|lines[k]| - 1]];
      assert k + 1 == |lines|;
      assert lines[k + 1..] == [];
    }
  }

  /** `m.end()`: the offset in the text where the anchor line's content ends. */
  function AnchorEnd(lines: seq<string>, k: nat): (r: nat)
    requires k < |lines|
    ensures r <= |Join(lines)|
  {
    JoinAround(lines, k);
    |AnchorPrefix(lines, k)|
  }

  /** `s[:ins] + "\n" + helper + s[ins:]` */
  function InsertHelper(s: string, ins: nat, helper: string): string
    requires ins <= |s|
  {
    s[..ins] + "\n" + helper + s[ins..]
  }

  /** Where the helper goes: the end of the anchor line's content, or the start of the text. */
  function HelperOffset(lines: seq<string>, anchor: Option<nat>): (r: nat)
    requires anchor.Some? ==> anchor.value < |lines|
    ensures r <= |Join(lines)|
  {
    match anchor case None => 0 case Some(k) => AnchorEnd(lines, k)
  }

  /** The text after step 1, for a given helper text and line tests, and whether the helper was
      added. */
  function WithHelperOf(s: string, helper: string, isDef: string -> bool, isBase: string -> bool,
                        isApp: string -> bool): (r: (string, bool))
  {
    var lines := SplitLines(s);
    if AnyIn(lines, 0, |lines|, isDef) then (s, false)
    else (InsertHelper(s, HelperOffset(lines, AnchorLineWith(lines, isBase, isApp)), helper), true)
  }

  /** Step 1 of the script: the `version_info()` helper after the BASE_DIR or Flask line. */
  function WithHelper(s: string): (string, bool) {
    WithHelperOf(s, HelperText, VersionInfoDefP(), MatchesP(BaseDirAnchor), MatchesP(FlaskAnchor))
  }

  /** The helper is added exactly when no line passes the def test; otherwise the text is kept. */
  lemma WithHelperAdds(s: string, helper: string, isDef: string -> bool, isBase: string -> bool,
                       isApp: string -> bool, lines: seq<string>)
    requires lines == SplitLines(s)
    ensures WithHelperOf(s, helper, isDef, isBase, isApp).1 <==> forall k :: 0 <= k < |lines| ==> !isDef(lines[k])
    ensures !WithHelperOf(s, helper, isDef, isBase, isApp).1 ==> WithHelperOf(s, helper, isDef, isBase, isApp).0 == s
  {
    AnyInIffFound(lines, 0, |lines|, isDef);
  }

  /** Step 1 inserts the helper at HelperOffset. */
  lemma WithHelperIs(s: string, helper: string, isDef: string -> bool, isBase: string -> bool,
                     isApp: string -> bool, lines: seq<string>, anchor: Option<nat>)
    requires lines == SplitLines(s) && anchor == AnchorLineWith(lines, isBase, isApp)
    requires WithHelperOf(s, helper, isDef, isBase, isApp).1
    ensures WithHelperOf(s, helper, isDef, isBase, isApp).0 == InsertHelper(s, HelperOffset(lines, anchor), helper)
  {
  }

  /** Without an anchor line the helper goes first. */
  lemma WithHelperFirst(s: string, helper: string, isDef: string -> bool, isBase: string -> bool,
                        isApp: string -> bool, lines: seq<string>)
    requires lines == SplitLines(s) && AnchorLineWith(lines, isBase, isApp).None?
    requires WithHelperOf(s, helper, isDef, isBase, isApp).1
    ensures WithHelperOf(s, helper, isDef, isBase, isApp).0 == "\n" + helper + s
  {
    WithHelperIs(s, helper, isDef, isBase, isApp, lines, None);
    assert s[..0] == "" && s[0..] == s;
  }

  /** With an anchor line the helper goes right after that line's content, before its newline:
      the text up to there and the text from there on are kept around it. */
  lemma WithHelperAfterAnchor(s: string, helper: string, isDef: string -> bool, isBase: string -> bool,
                              isApp: string -> bool, lines: seq<string>, k: nat)
    requires lines == SplitLines(s) && AnchorLineWith(lines, isBase, isApp) == Some(k)
    requires WithHelperOf(s, helper, isDef, isBase, isApp).1
    ensures AnchorPrefix(lines, k) <= s
    ensures WithHelperOf(s, helper, isDef, isBase, isApp).0 == AnchorPrefix(lines, k) + "\n" + helper + s[|AnchorPrefix(lines, k)|..]
    ensures |AnchorPrefix(lines, k)| == |s| || s[|AnchorPrefix(lines, k)|] == '\n'
  {
    AnchorPrefixEndsLine(lines, k);
    WithHelperIs(s, helper, isDef, isBase, isApp, lines, Some(k));
    InsertAtPrefix(s, AnchorPrefix(lines, k), helper);
  }

  /** Inserting after a prefix of the text keeps the prefix and the rest around the helper. */
  lemma InsertAtPrefix(s: string, before: string, helper: string)
    requires before <= s
    ensures InsertHelper(s, |before|, helper) == before + "\n" + helper + s[|before|..]
  {
    assert s[..|before|] == before;
  }

  // ---- steps 2-4 (lines 57-110): the /api/health handler ----

  function HealthDecoratorP(): string -> bool {
    l => IsHealthDecorator(l)
  }

  function AppDecoratorP(): string -> bool {
    l => IsAppDecorator(l)
  }

  /** `^\s*def\s+\w+\s*\(.*\)\s*:\s*$`, without a return annotation. */
  function PlainDefP(): string -> bool {
    l => IsDefSignature(l, false)
  }

  const ViText := "vi = version_info()"

  /** `f"{indent}vi = version_info()\n"` */
  function ViLine(indent: string): string {
    indent + ViText + "\n"
  }

  /** The leading whitespace of the line after the def, or four spaces when the def is the
      block's last line. */
  function ViIndent(block: seq<string>, k: nat): string
    requires k < |block|
  {
    if k + 1 < |block| then Indent(block[k + 1]) else "    "
  }

  /** Lines 76-84 for given line tests: unless a line already has the `vi` assignment, it is
      inserted right after the first def line; the flag says whether it was. */
  function EnsureViWith(block: seq<string>, hasVi: string -> bool, isDef: string -> bool): (r: (seq<string>, bool))
    ensures !r.1 ==> r.0 == block
  {
    if AnyIn(block, 0, |block|, hasVi) then (block, false)
    else
      var k := FirstIn(block, 0, |block|, isDef);
      if k == |block| then (block, false)
      else (Splice(block, k + 1, k + 1, [ViLine(ViIndent(block, k))]), true)
  }

  function EnsureVi(block: seq<string>): (seq<string>, bool) {
    EnsureViWith(block, HasText(ViText), PlainDefP())
  }

  /** The line is inserted exactly when no line has the assignment and some line is a def. */
  lemma EnsureViWhen(block: seq<string>, hasVi: string -> bool, isDef: string -> bool)
    ensures EnsureViWith(block, hasVi, isDef).1 <==>
      (forall j :: 0 <= j < |block| ==> !hasVi(block[j])) && exists j :: 0 <= j < |block| && isDef(block[j])
  {
    AnyInIffFound(block, 0, |block|, hasVi);
    AnyInIffFound(block, 0, |block|, isDef);
  }

  /** When it is inserted, it goes right after the first def line, everything else kept in
      order. */
  lemma EnsureViWhere(block: seq<string>, hasVi: string -> bool, isDef: string -> bool, k: nat)
    requires k == FirstIn(block, 0, |block|, isDef)
    requires EnsureViWith(block, hasVi, isDef).1
    ensures k < |block| && InsertedAt(block, EnsureViWith(block, hasVi, isDef).0, k + 1, [ViLine(ViIndent(block, k))])
  {
    SpliceInserts(block, k + 1, [ViLine(ViIndent(block, k))]);
  }

  /** The inserted line has the assignment. */
  lemma ViLineHasVi(indent: string)
    ensures Contains(ViLine(indent), ViText)
  {
    assert ViLine(indent)[|indent|..|indent| + |ViText|] == ViText;
    ContainsAt(ViLine(indent), ViText, |indent|);
  }

  /** After the step the block has the assignment whenever it has a def line, so running the
      step again inserts nothing. */
  lemma EnsureViTwice(block: seq<string>, k: nat)
    requires k == FirstIn(block, 0, |block|, PlainDefP()) && k < |block|
    ensures exists j :: 0 <= j < |EnsureVi(block).0| && Contains(EnsureVi(block).0[j], ViText)
    ensures !EnsureVi(EnsureVi(block).0).1
  {
    var out := EnsureVi(block).0;
    if EnsureVi(block).1 {
      EnsureViWhere(block, HasText(ViText), PlainDefP(), k);
      ViLineHasVi(ViIndent(block, k));
      assert out[k + 1 + 0] == ViLine(ViIndent(block, k));
      assert Contains(out[k + 1], ViText);
    } else {
      AnyInIffFound(block, 0, |block|, HasText(ViText));
      var j :| 0 <= j < |block| && HasText(ViText)(block[j]);
      assert Contains(out[j], ViText);
    }
    AnyInIffFound(out, 0, |out|, HasText(ViText));
    var j :| 0 <= j < |out| && Contains(out[j], ViText);
    assert HasText(ViText)(out[j]);
  }

  /** Whether an indent is made of blanks only. */
  predicate AllSpace(indent: string) {
    forall i :: 0 <= i < |indent| ==> IsSpace(indent[i])
  }

  /** The inserted line is no return line: whitespace, then a text without a `j`. */
  lemma ViLineNoReturn(indent: string)
    requires AllSpace(indent)
    ensures !Contains(ViLine(indent), "return jsonify(")
  {
    assert 'j' !in ViText + "\n";
    assert 'j' !in ViLine(indent) by {
      assert ViLine(indent) == indent + (ViText + "\n");
    }
    assert "return jsonify("[7] == 'j';
    MissingCharNoText(ViLine(indent), "return jsonify(", 'j');
  }

  /** The indent of the inserted line is whitespace. */
  lemma ViIndentIsSpace(block: seq<string>, k: nat)
    requires k < |block|
    ensures AllSpace(ViIndent(block, k))
  {
    if k + 1 < |block| {
      var l := block[k + 1];
      assert forall i :: 0 <= i < IndentLen(l) ==> Indent(l)[i] == l[i];
    } else {
      assert "    " == [' ', ' ', ' ', ' '];
    }
  }

  // ---- the new return (lines 95-107) ----

  const ReturnText := "return jsonify("

  /** `f'{indent}  "<key>": vi.get("<field>"),\n'` without the indent. */
  function Field(key: string, field: string): string {
    "  \"" + key + "\": vi.get" + "(" + "\"" + field + "\"" + ")" + ",\n"
  }

  /** The first line of the new return, which opens the call. */
  function ReturnHead(indent: string): string {
    indent + "return jsonify" + "(" + "{\n"
  }

  /** The version fields of the new return. */
  function ReturnFields(indent: string): string {
    (indent + Field("version", "version")) + (indent + Field("semver", "semver"))
    + (indent + Field("git_describe", "describe")) + (indent + Field("git_commit", "commit"))
    + (indent + Field("git_dirty", "dirty")) + (indent + Field("version_source", "source"))
  }

  /** The lines after the head: `ok`, the version fields, `**m`, and the line closing the call. */
  function ReturnTail(indent: string): string {
    (indent + "  \"ok\": True,\n") + ReturnFields(indent) + (indent + "  **m\n") + (indent + "}" + ")" + "\n")
  }

  /** `new_return`: one string of ten lines, all with the return line's indent. */
  function NewReturn(indent: string): string {
    ReturnHead(indent) + ReturnTail(indent)
  }

  /** Neither parenthesis occurs. */
  predicate ParenFree(s: string) {
    '(' !in s && ')' !in s
  }

  lemma {:induction false} CountAbsent(s: string, c: char)
    requires c !in s
    ensures CountChar(s, c) == 0
    decreases |s|
  {
    if s != [] {
      assert forall x :: x in s[1..] ==> x in s;
      CountAbsent(s[1..], c);
    }
  }

  lemma ParenFreeBalance(s: string)
    requires ParenFree(s)
    ensures Balance(s) == 0
  {
    CountAbsent(s, '(');
    CountAbsent(s, ')');
  }

  /** Parenthesis balance of a text of three parts. */
  lemma Balance3(a: string, b: string, c: string)
    ensures Balance(a + b + c) == Balance(a) + Balance(b) + Balance(c)
  {
    BalanceAppend(a, b);
    BalanceAppend(a + b, c);
  }

  lemma OneParen()
    ensures Balance("(") == 1 && Balance(")") == -1
  {
    assert "("[1..] == [] && ")"[1..] == [];
  }

  /** A version field opens and closes one parenthesis. */
  lemma FieldBalance(indent: string, key: string, field: string)
    requires ParenFree(indent) && ParenFree(key) && ParenFree(field)
    ensures Balance(indent + Field(key, field)) == 0
  {
    var p1 := "  \"" + key + "\": vi.get";
    var p2 := "\"" + field + "\"";
    var p3 := ",\n";
    assert ParenFree("  \"") && ParenFree("\": vi.get") && ParenFree("\"") && ParenFree(p3);
    assert ParenFree(p1) && ParenFree(p2);
    ParenFreeBalance(indent);
    ParenFreeBalance(p1);
    ParenFreeBalance(p2);
    ParenFreeBalance(p3);
    OneParen();
    assert Field(key, field) == p1 + "(" + p2 + ")" + p3;
    Balance3(p1, "(", p2);
    Balance3(p1 + "(" + p2, ")", p3);
    BalanceAppend(indent, Field(key, field));
  }

  /** The keys and fields of the new return hold no parenthesis. */
  lemma NamesParenFree()
    ensures ParenFree("version") && ParenFree("semver") && ParenFree("git_describe") && ParenFree("describe")
    ensures ParenFree("git_commit") && ParenFree("commit") && ParenFree("git_dirty") && ParenFree("dirty")
    ensures ParenFree("version_source") && ParenFree("source")
  {
    LettersParenFree("version");
    LettersParenFree("semver");
    LettersParenFree("git_describe");
    LettersParenFree("describe");
    LettersParenFree("git_commit");
    LettersParenFree("commit");
    LettersParenFree("git_dirty");
    LettersParenFree("dirty");
    LettersParenFree("version_source");
    LettersParenFree("source");
  }

  /** A name of word characters holds no parenthesis. */
  lemma LettersParenFree(name: string)
    requires forall i :: 0 <= i < |name| ==> IsWordChar(name[i])
    ensures ParenFree(name)
  {
  }

  lemma Balance6(f1: string, f2: string, f3: string, f4: string, f5: string, f6: string)
    requires Balance(f1) == 0 && Balance(f2) == 0 && Balance(f3) == 0
    requires Balance(f4) == 0 && Balance(f5) == 0 && Balance(f6) == 0
    ensures Balance(f1 + f2 + f3 + f4 + f5 + f6) == 0
  {
    BalanceAppend(f1, f2);
    BalanceAppend(f1 + f2, f3);
    BalanceAppend(f1 + f2 + f3, f4);
    BalanceAppend(f1 + f2 + f3 + f4, f5);
    BalanceAppend(f1 + f2 + f3 + f4 + f5, f6);
  }

  lemma FieldsBalance(indent: string)
    requires ParenFree(indent)
    ensures Balance(ReturnFields(indent)) == 0
  {
    NamesParenFree();
    FieldBalance(indent, "version", "version");
    FieldBalance(indent, "semver", "semver");
    FieldBalance(indent, "git_describe", "describe");
    FieldBalance(indent, "git_commit", "commit");
    FieldBalance(indent, "git_dirty", "dirty");
    FieldBalance(indent, "version_source", "source");
    Balance6(indent + Field("version", "version"), indent + Field("semver", "semver"),
             indent + Field("git_describe", "describe"), indent + Field("git_commit", "commit"),
             indent + Field("git_dirty", "dirty"), indent + Field("version_source", "source"));
  }

  /** The head opens the call, the tail closes it: the new return is balanced. */
  lemma NewReturnBalance(indent: string)
    requires ParenFree(indent)
    ensures Balance(ReturnHead(indent)) == 1 && Balance(ReturnTail(indent)) == -1
    ensures Balance(NewReturn(indent)) == 0
  {
    HeadBalance(indent);
    TailBalance(indent);
    BalanceAppend(ReturnHead(indent), ReturnTail(indent));
  }

  /** The literal parts of the new return hold no parenthesis. */
  lemma PartsParenFree()
    ensures ParenFree("return jsonify") && ParenFree("{\n") && ParenFree("  \"ok\": True,\n")
    ensures ParenFree("  **m\n") && ParenFree("}") && ParenFree("\n")
  {
  }

  lemma HeadBalance(indent: string)
    requires ParenFree(indent)
    ensures Balance(ReturnHead(indent)) == 1
  {
    OneParen();
    PartsParenFree();
    ParenFreeBalance(indent);
    ParenFreeBalance("return jsonify");
    ParenFreeBalance("{\n");
    Balance3(indent, "return jsonify", "(");
    BalanceAppend(indent + "return jsonify" + "(", "{\n");
  }

  /** Balance of a text of three parts, with one more part in front. */
  lemma Balance4(a: string, b: string, c: string, d: string)
    ensures Balance(a + b + c + d) == Balance(a) + Balance(b) + Balance(c) + Balance(d)
  {
    Balance3(a, b, c);
    BalanceAppend(a + b + c, d);
  }

  lemma TailBalance(indent: string)
    requires ParenFree(indent)
    ensures Balance(ReturnTail(indent)) == -1
  {
    OneParen();
    PartsParenFree();
    ParenFreeBalance(indent);
    ParenFreeBalance("  \"ok\": True,\n");
    ParenFreeBalance("  **m\n");
    ParenFreeBalance("}");
    ParenFreeBalance("\n");
    FieldsBalance(indent);
    BalanceAppend(indent, "  \"ok\": True,\n");
    BalanceAppend(indent, "  **m\n");
    Balance4(indent, "}", ")", "\n");
    Balance4(indent + "  \"ok\": True,\n", ReturnFields(indent), indent + "  **m\n", indent + "}" + ")" + "\n");
  }

  /** Leading whitespace holds no parenthesis. */
  lemma IndentParenFree(l: string)
    ensures ParenFree(Indent(l))
  {
    assert forall i :: 0 <= i < IndentLen(l) ==> Indent(l)[i] == l[i] && IsSpace(l[i]);
  }

  // ---- the return replacement: as written, and the whole call ----

  /** Lines 86-110 as written: the first line holding `return jsonify(`, line r, alone becomes
      the new return nr. */
  function ReplaceLineAsWritten(block: seq<string>, r: nat, nr: string): seq<string>
    requires r < |block|
  {
    Splice(block, r, r + 1, [nr])
  }

  /** The parentheses opened from line r on are all closed after line e. */
  predicate ClosedAfter(block: seq<string>, r: nat, e: nat)
    requires r <= e < |block|
  {
    Balance(Join(block[r..e + 1])) <= 0
  }

  /** The first line from e on after which the call that starts on line r is closed, or the end
      of the block. */
  function CallEndFrom(block: seq<string>, r: nat, e: nat): (res: nat)
    requires r <= e <= |block|
    ensures e <= res <= |block|
    ensures res < |block| ==> ClosedAfter(block, r, res)
    ensures forall j :: e <= j < res ==> !ClosedAfter(block, r, j)
    decreases |block| - e
  {
    if e == |block| then e
    else if ClosedAfter(block, r, e) then e
    else CallEndFrom(block, r, e + 1)
  }

  /** The end of the return statement that starts on line r: just after the line that closes
      its call, or just after line r when the call never closes. */
  function CallLast(block: seq<string>, r: nat): (res: nat)
    requires r < |block|
    ensures r < res <= |block|
  {
    var e := CallEndFrom(block, r, r);
    if e < |block| then e + 1 else r + 1
  }

  /** The replacement as intended: the whole return statement, every line of its call, becomes
      the new return nr. */
  function ReplaceCall(block: seq<string>, r: nat, nr: string): seq<string>
    requires r < |block|
  {
    Splice(block, r, CallLast(block, r), [nr])
  }

  /** As written, the lines after the first one of a multi-line call stay right after the new
      return nr, and with nr balanced the handler loses the parentheses the return line opened:
      a balanced handler whose return line opens more than it closes (the `return jsonify({`
      that spans lines 40-44 of app/app.py) ends up with more closing than opening ones. */
  lemma AsWrittenLeavesCallTail(block: seq<string>, r: nat, nr: string)
    requires r < |block| && Balance(nr) == 0
    ensures ReplaceLineAsWritten(block, r, nr)[r + 1..] == block[r + 1..]
    ensures Balance(Join(ReplaceLineAsWritten(block, r, nr))) == Balance(Join(block)) - Balance(block[r])
    ensures Balance(Join(block)) == 0 && Balance(block[r]) > 0 ==> Balance(Join(ReplaceLineAsWritten(block, r, nr))) < 0
  {
    JoinSpliceOne(block, r, r + 1, nr);
    JoinAround(block, r);
    Balance3(Join(block[..r]), nr, Join(block[r + 1..]));
    Balance3(Join(block[..r]), block[r], Join(block[r + 1..]));
  }

  /** With the whole call replaced by nr, nothing of the old call is left, and a balanced nr in
      place of a call that closes at balance zero keeps the handler's parenthesis balance. */
  lemma ReplaceCallKeepsBalance(block: seq<string>, r: nat, e: nat, nr: string)
    requires r <= e < |block| && e == CallEndFrom(block, r, r) && Balance(nr) == 0
    ensures ReplaceCall(block, r, nr) == block[..r] + [nr] + block[e + 1..]
    ensures Balance(Join(block[r..e + 1])) == 0 ==> Balance(Join(ReplaceCall(block, r, nr))) == Balance(Join(block))
  {
    JoinSpliceOne(block, r, e + 1, nr);
    JoinThree(block, r, e + 1);
    Balance3(Join(block[..r]), nr, Join(block[e + 1..]));
    Balance3(Join(block[..r]), Join(block[r..e + 1]), Join(block[e + 1..]));
  }

  /** A newline that ends a non-empty head stays inside any longer text. */
  lemma NewlineBeforeEnd(h: string, t: string)
    requires h != [] && h[|h| - 1] == '\n' && t != []
    ensures '\n' in (h + t)[..|h + t| - 1]
  {
    assert (h + t)[..|h + t| - 1][|h| - 1] == h[|h| - 1];
  }

  /** The new return is never a line of the split text: it holds a newline before its end. */
  lemma NewReturnSpansLines(indent: string)
    ensures |NewReturn(indent)| > 0
    ensures '\n' in NewReturn(indent)[..|NewReturn(indent)| - 1]
  {
    var h := ReturnHead(indent);
    assert h == indent + "return jsonify" + "(" + "{\n";
    assert |ReturnTail(indent)| > 0;
    NewlineBeforeEnd(h, ReturnTail(indent));
  }

  /** As written the handler text always changes when line r is a line of the split text and nr
      holds a newline before its end, as the new return does: so the `unchanged` branch of lines
      113-117 is never taken, and a second run rewrites the return again. */
  lemma AsWrittenAlwaysChanges(block: seq<string>, r: nat, nr: string)
    requires r < |block| && IsLineAt(block, r) && 0 < |nr| && '\n' in nr[..|nr| - 1]
    ensures Join(ReplaceLineAsWritten(block, r, nr)) != Join(block)
  {
    var a := Join(block[..r]);
    var c := Join(block[r + 1..]);
    JoinSpliceOne(block, r, r + 1, nr);
    JoinAround(block, r);
    if |nr| != |block[r]| {
      assert |a + nr + c| != |a + block[r] + c|;
    } else {
      assert nr[..|nr| - 1] != block[r][..|block[r]| - 1];
      assert (a + nr + c)[|a|..|a| + |nr|] == nr;
      assert (a + block[r] + c)[|a|..|a| + |nr|] == block[r];
    }
  }

  /** The finding on the script's own new return: with a balanced handler whose return line
      opens a call it does not close on that line, the rewritten handler has more closing than
      opening parentheses. */
  lemma HealthReturnAsWritten(block: seq<string>, r: nat)
    requires r < |block| && Balance(Join(block)) == 0 && Balance(block[r]) > 0
    ensures Balance(Join(ReplaceLineAsWritten(block, r, NewReturn(Indent(block[r]))))) < 0
  {
    IndentParenFree(block[r]);
    NewReturnBalance(Indent(block[r]));
    AsWrittenLeavesCallTail(block, r, NewReturn(Indent(block[r])));
  }

  /** And the handler text differs from the old one however often the script runs. */
  lemma HealthReturnAlwaysChanges(block: seq<string>, r: nat)
    requires r < |block| && IsLineAt(block, r)
    ensures Join(ReplaceLineAsWritten(block, r, NewReturn(Indent(block[r])))) != Join(block)
  {
    NewReturnSpansLines(Indent(block[r]));
    AsWrittenAlwaysChanges(block, r, NewReturn(Indent(block[r])));
  }

  /** The correction on the script's own new return: the whole call goes, and a handler's
      parenthesis balance is kept. */
  lemma HealthReturnReplaced(block: seq<string>, r: nat, e: nat)
    requires r <= e < |block| && e == CallEndFrom(block, r, r) && Balance(Join(block[r..e + 1])) == 0
    ensures ReplaceCall(block, r, NewReturn(Indent(block[r]))) == block[..r] + [NewReturn(Indent(block[r]))] + block[e + 1..]
    ensures Balance(Join(ReplaceCall(block, r, NewReturn(Indent(block[r]))))) == Balance(Join(block))
  {
    IndentParenFree(block[r]);
    NewReturnBalance(Indent(block[r]));
    ReplaceCallKeepsBalance(block, r, e, NewReturn(Indent(block[r])));
  }

  // ---- the whole of patch_app_py ----

  /** Steps 2-5 on the lines of the text s1 that step 1 produced, for given line tests and a
      given new return for an indent: find the handler, insert `vi`, replace the first return
      line, and write the text if it changed. */
  function PatchHandlerWith(s1: string, lines: seq<string>, isDec: string -> bool, isTop: string -> bool,
                            hasVi: string -> bool, isDef: string -> bool, hasRet: string -> bool,
                            newRet: string -> string): (r: Outcome<string>)
    ensures r.Exit? ==> r.code == 0 || r.code == 1
    ensures r.Write? ==> r.content != s1
  {
    match FindBlock(lines, isDec, isTop)
    case None => Exit(1)
    case Some((dec, end)) =>
      var block := EnsureViWith(lines[dec..end], hasVi, isDef).0;
      var r := FirstIn(block, 0, |block|, hasRet);
      if r == |block| then Exit(1)
      else
        var s2 := Join(lines[..dec]) + Join(ReplaceLineAsWritten(block, r, newRet(Indent(block[r])))) + Join(lines[end..]);
        if s2 != s1 then Write(s2) else Exit(0)
  }

  /** PatchHandlerWith with the whole return call replaced, as the script evidently intends. */
  function PatchHandlerFixed(s1: string, lines: seq<string>, isDec: string -> bool, isTop: string -> bool,
                             hasVi: string -> bool, isDef: string -> bool, hasRet: string -> bool,
                             newRet: string -> string): (r: Outcome<string>)
    ensures r.Exit? ==> r.code == 0 || r.code == 1
    ensures r.Write? ==> r.content != s1
  {
    match FindBlock(lines, isDec, isTop)
    case None => Exit(1)
    case Some((dec, end)) =>
      var block := EnsureViWith(lines[dec..end], hasVi, isDef).0;
      var r := FirstIn(block, 0, |block|, hasRet);
      if r == |block| then Exit(1)
      else
        var s2 := Join(lines[..dec]) + Join(ReplaceCall(block, r, newRet(Indent(block[r])))) + Join(lines[end..]);
        if s2 != s1 then Write(s2) else Exit(0)
  }

  /** The two differ only in the replacement: they stop alike, and write alike when the return
      call fits on its line. */
  lemma PatchHandlerFixedAgrees(s1: string, lines: seq<string>, isDec: string -> bool, isTop: string -> bool,
                                hasVi: string -> bool, isDef: string -> bool, hasRet: string -> bool,
                                newRet: string -> string, dec: nat, end: nat, r: nat)
    requires FindBlock(lines, isDec, isTop) == Some((dec, end))
    requires var block := EnsureViWith(lines[dec..end], hasVi, isDef).0;
      r == FirstIn(block, 0, |block|, hasRet) && r < |block| && ClosedAfter(block, r, r)
    ensures PatchHandlerFixed(s1, lines, isDec, isTop, hasVi, isDef, hasRet, newRet)
      == PatchHandlerWith(s1, lines, isDec, isTop, hasVi, isDef, hasRet, newRet)
  {
    var block := EnsureViWith(lines[dec..end], hasVi, isDef).0;
    assert CallEndFrom(block, r, r) == r;
    assert ReplaceCall(block, r, newRet(Indent(block[r]))) == ReplaceLineAsWritten(block, r, newRet(Indent(block[r])));
  }

  function NewReturnP(): string -> string {
    indent => NewReturn(indent)
  }

  /** `patch_app_py`: the helper, then the handler, on the text of app/app.py. */
  function PatchApp(s: string): Outcome<string> {
    var s1 := WithHelper(s).0;
    PatchHandlerWith(s1, SplitLines(s1), HealthDecoratorP(), AppDecoratorP(), HasText(ViText),
                     PlainDefP(), HasText(ReturnText), NewReturnP())
  }

  /** Without a decorator line the script stops with status 1 and writes nothing. */
  lemma NoHandlerExits(s1: string, lines: seq<string>, isDec: string -> bool, isTop: string -> bool,
                       hasVi: string -> bool, isDef: string -> bool, hasRet: string -> bool, newRet: string -> string)
    ensures FindBlock(lines, isDec, isTop).None? <==> forall k :: 0 <= k < |lines| ==> !isDec(lines[k])
    ensures FindBlock(lines, isDec, isTop).None? ==> PatchHandlerWith(s1, lines, isDec, isTop, hasVi, isDef, hasRet, newRet) == Exit(1)
  {
    FindBlockMeaning(lines, isDec, isTop);
    AnyInIffFound(lines, 0, |lines|, isDec);
  }

  /** The block keeps whether it has a return line when `vi` is inserted. */
  lemma EnsureViKeepsReturn(block: seq<string>, hasVi: string -> bool, isDef: string -> bool, hasRet: string -> bool)
    requires forall indent: string :: AllSpace(indent) ==> !hasRet(ViLine(indent))
    ensures (exists k :: 0 <= k < |EnsureViWith(block, hasVi, isDef).0| && hasRet(EnsureViWith(block, hasVi, isDef).0[k]))
      <==> exists k :: 0 <= k < |block| && hasRet(block[k])
  {
    if EnsureViWith(block, hasVi, isDef).1 {
      var k := FirstIn(block, 0, |block|, isDef);
      EnsureViWhere(block, hasVi, isDef, k);
      ViIndentIsSpace(block, k);
      InsertKeepsAny(block, EnsureViWith(block, hasVi, isDef).0, k + 1, [ViLine(ViIndent(block, k))], hasRet);
    }
  }

  /** With the handler found, the script stops with status 1 exactly when no line of the
      handler (from its decorator to the next column-0 route) holds a return line. */
  lemma HandlerExits(s1: string, lines: seq<string>, isDec: string -> bool, isTop: string -> bool,
                     hasVi: string -> bool, isDef: string -> bool, hasRet: string -> bool, newRet: string -> string,
                     dec: nat, end: nat)
    requires FindBlock(lines, isDec, isTop) == Some((dec, end))
    requires forall indent: string :: AllSpace(indent) ==> !hasRet(ViLine(indent))
    ensures PatchHandlerWith(s1, lines, isDec, isTop, hasVi, isDef, hasRet, newRet) == Exit(1) <==>
      forall k :: dec <= k < end ==> !hasRet(lines[k])
  {
    var block := EnsureViWith(lines[dec..end], hasVi, isDef).0;
    EnsureViKeepsReturn(lines[dec..end], hasVi, isDef, hasRet);
    AnyInIffFound(block, 0, |block|, hasRet);
    AnyInSlice(lines, dec, end, hasRet);
  }

  /** The script's own return test never holds on the inserted `vi` line. */
  lemma ReturnTestSkipsVi()
    ensures forall indent: string :: AllSpace(indent) ==> !HasText(ReturnText)(ViLine(indent))
  {
    forall indent: string | AllSpace(indent)
      ensures !HasText(ReturnText)(ViLine(indent))
    {
      ViLineNoReturn(indent);
    }
  }

  /** The whole script on app/app.py's text: status 1 exactly when, after step 1, there is no
      /api/health decorator, or its handler has no `return jsonify(` line. */
  lemma PatchAppExits(s: string, lines: seq<string>, dec: nat, end: nat)
    requires lines == SplitLines(WithHelper(s).0)
    ensures FindBlock(lines, HealthDecoratorP(), AppDecoratorP()).None? <==>
      forall k :: 0 <= k < |lines| ==> !IsHealthDecorator(lines[k])
    ensures FindBlock(lines, HealthDecoratorP(), AppDecoratorP()).None? ==> PatchApp(s) == Exit(1)
    ensures FindBlock(lines, HealthDecoratorP(), AppDecoratorP()) == Some((dec, end)) ==>
      (PatchApp(s) == Exit(1) <==> forall k :: dec <= k < end ==> !Contains(lines[k], ReturnText))
  {
    var s1 := WithHelper(s).0;
    NoHandlerExits(s1, lines, HealthDecoratorP(), AppDecoratorP(), HasText(ViText), PlainDefP(), HasText(ReturnText), NewReturnP());
    if FindBlock(lines, HealthDecoratorP(), AppDecoratorP()) == Some((dec, end)) {
      ReturnTestSkipsVi();
      HandlerExits(s1, lines, HealthDecoratorP(), AppDecoratorP(), HasText(ViText), PlainDefP(), HasText(ReturnText),
                   NewReturnP(), dec, end);
    }
  }

  /** The `for k, ln in enumerate(...): if ...: break` searches of lines 59-63, 69-72 and
      88-91: the first line from lo on that passes p, or the end. */
  method FirstRun(lines: seq<string>, lo: nat, p: string -> bool) returns (i: nat)
    requires lo <= |lines|
    ensures i == FirstIn(lines, lo, |lines|, p)
  {
    i := |lines|;
    var k := lo;
    while k < |lines|
      invariant lo <= k <= |lines| && i == |lines|
      invariant FirstIn(lines, k, |lines|, p) == FirstIn(lines, lo, |lines|, p)
    {
      if p(lines[k]) {
        i := k;
        break;
      }
      k := k + 1;
    }
  }

  /** Lines 76-84: unless a line has the `vi` assignment, it goes in right after the first def
      line, with the indent of the line after the def. */
  method InsertViRun(block: seq<string>, hasVi: string -> bool, isDef: string -> bool) returns (out: seq<string>)
    ensures out == EnsureViWith(block, hasVi, isDef).0
  {
    out := block;
    if !AnyIn(block, 0, |block|, hasVi) {
      var k := 0;
      while k < |out|
        invariant k <= |out| && out == block
        invariant FirstIn(out, k, |out|, isDef) == FirstIn(out, 0, |out|, isDef)
      {
        if isDef(out[k]) {
          var indent := if k + 1 < |out| then Indent(out[k + 1]) else "    ";
          out := out[..k + 1] + [indent + ViText + "\n"] + out[k + 1..];
          break;
        }
        k := k + 1;
      }
    }
  }

  /** The steps of `patch_app_py` as the script runs them, on the text s1 that step 1 produced:
      the decorator search (lines 59-65), the search for the next top-level route (lines 67-74),
      the `vi` insertion (lines 76-84), the return search (lines 86-93) and the replacement of
      the first return line by newRet of its indent (lines 95-117). */
  method PatchHandlerRun(s1: string, lines: seq<string>, isDec: string -> bool, isTop: string -> bool,
                         hasVi: string -> bool, isDef: string -> bool, hasRet: string -> bool,
                         newRet: string -> string) returns (r: Outcome<string>)
    ensures r == PatchHandlerWith(s1, lines, isDec, isTop, hasVi, isDef, hasRet, newRet)
  {
    var dec := FirstRun(lines, 0, isDec);
    if dec == |lines| {
      return Exit(1);
    }
    var end := FirstRun(lines, dec + 1, isTop);
    var block := InsertViRun(lines[dec..end], hasVi, isDef);
    var ret := FirstRun(block, 0, hasRet);
    if ret == |block| {
      return Exit(1);
    }
    var nr := newRet(Indent(block[ret]));
    assert block[ret := nr] == ReplaceLineAsWritten(block, ret, nr);
    block := block[ret := nr];
    var s2 := Join(lines[..dec]) + Join(block) + Join(lines[end..]);
    if s2 != s1 {
      r := Write(s2);
    } else {
      r := Exit(0);
    }
  }

  /** `patch_app_py` run step by step on the text of app/app.py. */
  method PatchAppRun(s: string) returns (r: Outcome<string>)
    ensures r == PatchApp(s)
  {
    var s1 := WithHelper(s).0;
    r := PatchHandlerRun(s1, SplitLines(s1), HealthDecoratorP(), AppDecoratorP(), HasText(ViText),
                         PlainDefP(), HasText(ReturnText), NewReturnP());
  }

  // ---- patch_static (lines 119-131) ----

  /** What the pattern wants after the plus sign and the whitespace run. */
  const TailPath := "/tail?lines=200\""

  /** The replacement text: the plus sign, a space and the quoted path. */
  const FixedTail := "+" + FixedRest

  /** What follows the plus sign of the replacement; it holds no plus sign. */
  const FixedRest := " \"/tail?lines=200\""

  /** Neither the path nor the replacement's tail holds a plus sign. */
  lemma NoPlusInPaths()
    ensures '+' !in TailPath && '+' !in FixedRest
  {
  }

  /** The pattern of line 125 (a plus sign, a whitespace run, then TailPath) matched at the
      start of t: the length of the match. */
  function TailMatch(t: string): (r: Option<nat>)
    ensures r.Some? ==> 1 <= r.value <= |t|
  {
    if t == [] || t[0] != '+' then None
    else
      var n := IndentLen(t[1..]);
      if TailPath <= t[1 + n..] then Some(1 + n + |TailPath|) else None
  }

  /** No position of the text starts a match. */
  predicate NoTailMatch(s: string) {
    forall i :: 0 <= i <= |s| ==> TailMatch(s[i..]).None?
  }

  /** `re.sub(...)`: every match, leftmost first and not overlapping, becomes FixedTail. */
  function FixTail(s: string): (r: string)
    decreases |s|
  {
    match TailMatch(s)
    case Some(e) => FixedTail + FixTail(s[e..])
    case None => if s == [] then [] else [s[0]] + FixTail(s[1..])
  }

  /** The file is written only when the substitution changed the text. */
  function PatchStatic(s: string): Outcome<string> {
    var t := FixTail(s);
    if t != s then Write(t) else Exit(0)
  }

  /** A text without a match is left as it is. */
  lemma {:induction false} FixTailKeeps(s: string)
    requires NoTailMatch(s)
    ensures FixTail(s) == s
    decreases |s|
  {
    assert s[0..] == s;
    if s != [] {
      assert NoTailMatch(s[1..]) by {
        forall i | 0 <= i <= |s| - 1 ensures TailMatch(s[1..][i..]).None? {
          assert s[1..][i..] == s[i + 1..];
        }
      }
      FixTailKeeps(s[1..]);
    }
  }

  /** Leading whitespace never starts a match, so it is kept. */
  lemma {:induction false} FixTailLeadingSpace(t: string)
    ensures FixTail(t) == t[..IndentLen(t)] + FixTail(t[IndentLen(t)..])
    decreases |t|
  {
    if IndentLen(t) > 0 {
      assert TailMatch(t).None?;
      FixTailLeadingSpace(t[1..]);
      assert IndentLen(t[1..]) == IndentLen(t) - 1;
      assert t[1..][..IndentLen(t) - 1] == t[1..IndentLen(t)];
      assert t[1..][IndentLen(t) - 1..] == t[IndentLen(t)..];
      assert t[..IndentLen(t)] == [t[0]] + t[1..IndentLen(t)];
    } else {
      assert t[..0] == [] && t[0..] == t;
    }
  }

  /** A text without plus signs that starts the output already started the input: the output
      differs from the input only where a match put a plus sign. */
  lemma {:induction false} PlainPrefixOfFixTail(w: string, t: string)
    requires '+' !in w && w <= FixTail(t)
    ensures w <= t
    decreases |t|
  {
    if w != [] {
      assert w[0] in w;
      FixTailPlainHead(t);
      PrefixOfCons(w, t[0], FixTail(t[1..]));
      assert '+' !in w[1..] by {
        assert forall c :: c in w[1..] ==> c in w;
      }
      PlainPrefixOfFixTail(w[1..], t[1..]);
      assert w == [w[0]] + w[1..];
    }
  }

  /** A non-empty prefix of `[c] + rest` is `c` followed by a prefix of `rest`. */
  lemma PrefixOfCons(w: string, c: char, rest: string)
    requires w != [] && w <= [c] + rest
    ensures w[0] == c && w[1..] <= rest
  {
    assert w[1..] == ([c] + rest)[1..|w|];
  }

  /** An output that does not start with a plus sign started with a character kept as it was. */
  lemma FixTailPlainHead(t: string)
    requires FixTail(t) != [] && FixTail(t)[0] != '+'
    ensures t != [] && TailMatch(t).None? && FixTail(t) == [t[0]] + FixTail(t[1..])
  {
  }

  /** The output starts with a non-space unless it is empty. */
  lemma FixTailStart(u: string)
    requires u == [] || !IsSpace(u[0])
    ensures FixTail(u) == [] || !IsSpace(FixTail(u)[0])
  {
    match TailMatch(u)
    case Some(e) =>
      assert FixTail(u)[0] == '+';
    case None =>
  }

  /** The whitespace run at the start of the output is the one of the input. */
  lemma FixTailIndent(t: string)
    ensures IndentLen(FixTail(t)) == IndentLen(t)
    ensures FixTail(t)[IndentLen(t)..] == FixTail(t[IndentLen(t)..])
  {
    var m := IndentLen(t);
    var u := t[m..];
    var tOut := FixTail(t);
    FixTailLeadingSpace(t);
    FixTailStart(u);
    assert forall i :: 0 <= i < m ==> tOut[i] == t[i];
    if m < |tOut| {
      assert tOut[m] == FixTail(u)[0];
    }
    PrefixLenIs(tOut, IsSpace, m);
  }

  /** A plus sign the substitution left alone is still not followed by the pattern. */
  lemma KeptPlusNoMatch(s: string)
    requires s != [] && s[0] == '+' && TailMatch(s).None?
    ensures TailMatch([s[0]] + FixTail(s[1..])).None?
  {
    var t := s[1..];
    var m := IndentLen(t);
    var u := t[m..];
    var out := [s[0]] + FixTail(t);
    FixTailIndent(t);
    assert out[1..] == FixTail(t);
    assert out[1 + m..] == FixTail(u);
    if TailPath <= FixTail(u) {
      NoPlusInPaths();
      PlainPrefixOfFixTail(TailPath, u);
      assert false;
    }
  }

  /** The replacement followed by a text without a match holds no match. */
  lemma FixedTailNoMatch(rest: string)
    requires NoTailMatch(rest)
    ensures NoTailMatch(FixedTail + rest)
  {
    var out := FixedTail + rest;
    forall i | 0 <= i <= |out| ensures TailMatch(out[i..]).None? {
      if i == 0 {
        assert out[1] == ' ' && out[2] == '"';
        assert IndentLen(out[1..]) == 1 by {
          PrefixLenIs(out[1..], IsSpace, 1);
        }
        assert out[2..][0] == '"';
      } else if i < |FixedTail| {
        NoPlusInPaths();
        assert out[i] == FixedRest[i - 1];
        assert out[i..][0] == out[i];
      } else {
        assert out[i..] == rest[i - |FixedTail|..];
      }
    }
  }

  /** A character that starts no match, followed by a text without a match, holds no match. */
  lemma KeptCharNoMatch(s: string)
    requires s != [] && TailMatch(s).None? && NoTailMatch(FixTail(s[1..]))
    ensures NoTailMatch([s[0]] + FixTail(s[1..]))
  {
    var rest := FixTail(s[1..]);
    var out := [s[0]] + rest;
    forall i | 0 <= i <= |out| ensures TailMatch(out[i..]).None? {
      if i == 0 {
        assert out[0..] == out;
        if s[0] == '+' {
          KeptPlusNoMatch(s);
        }
      } else {
        assert out[i..] == rest[i - 1..];
      }
    }
  }

  /** After the substitution no match is left anywhere in the text. */
  lemma {:induction false} FixTailNoMatch(s: string)
    ensures NoTailMatch(FixTail(s))
    decreases |s|
  {
    match TailMatch(s)
    case Some(e) =>
      FixTailNoMatch(s[e..]);
      FixedTailNoMatch(FixTail(s[e..]));
    case None =>
      if s != [] {
        FixTailNoMatch(s[1..]);
        KeptCharNoMatch(s);
      } else {
        assert FixTail(s)[0..] == [];
      }
  }

  /** Running the substitution twice gives what running it once gives. */
  lemma FixTailIdempotent(s: string)
    ensures FixTail(FixTail(s)) == FixTail(s)
  {
    FixTailNoMatch(s);
    FixTailKeeps(FixTail(s));
  }

  /** The substitution changes the text exactly when the text holds a match, so the file is
      written exactly then, and a second run finds nothing to do. */
  lemma PatchStaticMeaning(s: string)
    ensures PatchStatic(s).Exit? <==> NoTailMatch(s)
    ensures PatchStatic(s).Exit? ==> PatchStatic(s).code == 0
    ensures PatchStatic(s).Write? ==> NoTailMatch(PatchStatic(s).content) && PatchStatic(PatchStatic(s).content) == Exit(0)
  {
    FixTailNoMatch(s);
    if NoTailMatch(s) {
      FixTailKeeps(s);
    }
    FixTailIdempotent(s);
  }

  // ---- the script (lines 133-134) ----

  /** The script runs `patch_app_py` on app/app.py, then `patch_static` on static/index.html;
      a `SystemExit` in the first stops the script before the second. */
  function RunScript(app: string, html: string): (r: (Outcome<string>, Option<Outcome<string>>))
    ensures r.0 == PatchApp(app)
    ensures r.1.None? <==> r.0 == Exit(1)
    ensures r.1.Some? ==> r.1.value == PatchStatic(html)
  {
    var a := PatchApp(app);
    if a == Exit(1) then (a, None) else (a, Some(PatchStatic(html)))
  }
}
