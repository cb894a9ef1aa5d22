// scripts/patch-health-versioning.py: add a `version_info()` helper to app/app.py when it is
// missing, then edit the /api/health handler: insert `vi = version_info()` after its docstring
// and replace its first "version" key by six keys read from `vi`.
module HealthVersioning {
  import opened Common
  import opened Text
  import opened LinePattern
  import opened Lines
  import opened AppLines
  import opened Versioning

  // ---- line tests ----

  /** `^\s*BASE_DIR\s*=\s*` */
  const BaseDirPattern: seq<Piece> := [Ws(0), Lit("BASE_DIR"), Ws(0), Lit("="), Ws(0)]

  predicate IsBaseDir(l: string) {
    Matches(l, BaseDirPattern)
  }

  predicate IsFlaskApp(l: string) {
    Contains(l, "app = Flask(")
  }

  /** `re.match(r'^\s*@app\.', l)` together with a zero indentation width. */
  predicate IsTopDecorator(l: string) {
    Matches(l, [Ws(0), Lit("@app.")]) && IndentLen(l) == 0
  }

  /** The two tests of `find_block_end` together say that the line starts with `@app.`. */
  lemma TopDecoratorIff(l: string)
    ensures IsTopDecorator(l) <==> IsAppDecorator(l)
  {
    var pat := [Ws(0), Lit("@app.")];
    if IndentLen(l) == 0 {
      assert MatchAt(l, 0, pat) == MatchAt(l, 0, pat[1..]);
      assert l[0..] == l;
    }
    if IsAppDecorator(l) {
      assert l[0] == '@';
    }
  }

  /** A line test. The functions of the main flow take the script's line tests as parameters,
      so that the reasoning about where the handler block lies does not depend on how each test
      is spelled. */
  type Test = string -> bool

  // ---- ensure_version_info ----

  /** The helper, inserted as one list element (a text of many lines): its first two lines, then
      the rest. */
  const HelperRest: string :=
    "    \"\"\"\n" +
    "    Versioning policy:\n" +
    "      - SemVer tags: vMAJOR.MINOR.PATCH\n" +
    "      - Build identity: git describe --tags --dirty --always\n" +
    "    \"\"\"\n" +
    "    import os, re, subprocess\n" +
    "\n" +
    "    def _git(args):\n" +
    "        try:\n" +
    "            r = subprocess.run([\"git\", \"-C\", BASE_DIR, *args], capture_output=True, text=True)\n" +
    "            if r.returncode != 0:\n" +
    "                return None\n" +
    "            return (r.stdout or \"\").strip() or None\n" +
    "        except Exception:\n" +
    "            return None\n" +
    "\n" +
    "    describe = _git([\"describe\", \"--tags\", \"--dirty\", \"--always\"])\n" +
    "    commit = _git([\"rev-parse\", \"--short=12\", \"HEAD\"])\n" +
    "    st = _git([\"status\", \"--porcelain\"]) or \"\"\n" +
    "    dirty = bool(st.strip())\n" +
    "\n" +
    "    semver = None\n" +
    "    if describe:\n" +
    "        m = re.match(r\"^(v\\d+\\.\\d+\\.\\d+)\", describe)\n" +
    "        if m:\n" +
    "            semver = m.group(1)\n" +
    "\n" +
    "    version = os.environ.get(\"JR_GOLDEN_SD_VERSION\") or describe or commit or \"unknown\"\n" +
    "    source = \"env\" if os.environ.get(\"JR_GOLDEN_SD_VERSION\") else \"git\"\n" +
    "    return {\n" +
    "        \"version\": version,\n" +
    "        \"describe\": describe,\n" +
    "        \"commit\": commit,\n" +
    "        \"dirty\": dirty,\n" +
    "        \"semver\": semver,\n" +
    "        \"source\": source,\n" +
    "    }\n"

  const HelperHead := "\n" + "def version_info():\n"

  const Helper: string := HelperHead + HelperRest

  /** Where the helper goes: after the first BASE_DIR line, else after the first
      `app = Flask(` line, else at the top. */
  function HelperAt(lines: seq<string>, isBase: Test, isApp: Test): (at: nat)
    ensures at <= |lines|
  {
    var b := FirstIn(lines, 0, |lines|, isBase);
    if b < |lines| then b + 1
    else
      var a := FirstIn(lines, 0, |lines|, isApp);
      if a < |lines| then a + 1 else 0
  }

  /** `ensure_version_info`: nothing to do when a `def version_info():` line exists; otherwise
      the helper is inserted as one element. The flag tells whether it was. */
  function EnsureVersionInfoWith(lines: seq<string>, helper: string, isViDef: Test, isBase: Test, isApp: Test): (r: (seq<string>, bool))
    ensures !r.1 ==> r.0 == lines
  {
    if AnyIn(lines, 0, |lines|, isViDef) then (lines, false)
    else
      var at := HelperAt(lines, isBase, isApp);
      (Splice(lines, at, at, [helper]), true)
  }

  /** The script's generator expression and its two `for ... break` searches. */
  method EnsureVersionInfoRun(lines: seq<string>, helper: string, isViDef: Test, isBase: Test, isApp: Test) returns (out: seq<string>, added: bool)
    ensures (out, added) == EnsureVersionInfoWith(lines, helper, isViDef, isBase, isApp)
  {
    for i := 0 to |lines|
      invariant forall k :: 0 <= k < i ==> !isViDef(lines[k])
    {
      if isViDef(lines[i]) {
        AnyInIffFound(lines, 0, |lines|, isViDef);
        return lines, false;
      }
    }
    AnyInIffFound(lines, 0, |lines|, isViDef);
    var base := FindFirst(lines, 0, |lines|, isBase);
    var at: nat;
    if base < |lines| {
      at := base + 1;
    } else {
      var app := FindFirst(lines, 0, |lines|, isApp);
      at := if app < |lines| then app + 1 else 0;
    }
    out := lines[..at] + [helper] + lines[at..];
    added := true;
  }

  /** The helper is added exactly when no line defines `version_info()`, right after the first
      BASE_DIR line, else right after the first `app = Flask(` line, else at the top (HelperAtMeaning);
      every other line keeps its place. */
  lemma EnsureVersionInfoMeaning(lines: seq<string>, helper: string, isViDef: Test, isBase: Test, isApp: Test)
    ensures var r := EnsureVersionInfoWith(lines, helper, isViDef, isBase, isApp);
      r.1 <==> forall k :: 0 <= k < |lines| ==> !isViDef(lines[k])
    ensures var r := EnsureVersionInfoWith(lines, helper, isViDef, isBase, isApp);
      r.1 ==> InsertedAt(lines, r.0, HelperAt(lines, isBase, isApp), [helper])
  {
    AnyInIffFound(lines, 0, |lines|, isViDef);
    SpliceInserts(lines, HelperAt(lines, isBase, isApp), [helper]);
  }

  lemma HelperAtMeaning(lines: seq<string>, isBase: Test, isApp: Test)
    ensures var at := HelperAt(lines, isBase, isApp);
      && ((exists k :: 0 <= k < |lines| && isBase(lines[k])) ==>
            0 < at && isBase(lines[at - 1]) && forall k :: 0 <= k < at - 1 ==> !isBase(lines[k]))
      && ((forall k :: 0 <= k < |lines| ==> !isBase(lines[k])) && (exists k :: 0 <= k < |lines| && isApp(lines[k])) ==>
            0 < at && isApp(lines[at - 1]) && forall k :: 0 <= k < at - 1 ==> !isApp(lines[k]))
      && ((forall k :: 0 <= k < |lines| ==> !isBase(lines[k]) && !isApp(lines[k])) ==> at == 0)
  {
    AnyInIffFound(lines, 0, |lines|, isBase);
    AnyInIffFound(lines, 0, |lines|, isApp);
  }

  // ---- ensure_vi_in_function ----

  function NotBlankP(): string -> bool {
    l => !IsBlank(l)
  }

  /** The line starts, after its indentation, with three double or three single quotes. */
  predicate OpensDocstring(l: string) {
    StartsWith(LStrip(l), "\"\"\"") || StartsWith(LStrip(l), "'''")
  }

  /** The docstring's quote: its first three characters. */
  function QuoteOf(l: string): (q: string)
    requires OpensDocstring(l)
    ensures |q| == 3
  {
    LStrip(l)[..3]
  }

  /** The opening line holds the closing quote as well: a one-line docstring. */
  predicate ClosesOnOpen(l: string)
    requires OpensDocstring(l)
  {
    Contains(LStrip(l)[3..], QuoteOf(l))
  }

  /** The first line after the def and the blank lines that follow it. */
  function FirstCode(block: seq<string>): (i: nat)
    requires |block| >= 1
    ensures 1 <= i <= |block|
  {
    FirstIn(block, 1, |block|, NotBlankP())
  }

  /** Where `vi = version_info()` goes: after the leading blank lines and, when one opens there,
      after the first later line holding the docstring's quote (or at the end of the block). */
  function ViAt(block: seq<string>): (r: nat)
    requires |block| >= 1
    ensures 1 <= r <= |block|
  {
    var i := FirstCode(block);
    if i < |block| && OpensDocstring(block[i]) then PastQuote(block, i + 1, QuoteOf(block[i]))
    else i
  }

  /** The index after the first line from `lo` on that holds `quote`, or the end of the block. */
  function PastQuote(block: seq<string>, lo: nat, quote: string): (r: nat)
    requires lo <= |block|
    ensures lo <= r <= |block|
  {
    var j := FirstIn(block, lo, |block|, HasText(quote));
    if j < |block| then j + 1 else |block|
  }

  /** No line from `lo` up to the one before PastQuote holds the quote, and that one does
      unless the search ran to the end of the block. */
  lemma PastQuoteMeaning(block: seq<string>, lo: nat, quote: string, r: nat)
    requires lo <= |block| && r == PastQuote(block, lo, quote)
    ensures forall k :: lo <= k < r - 1 ==> !Contains(block[k], quote)
    ensures r < |block| ==> lo < r && Contains(block[r - 1], quote)
  {
    FirstWithText(block, lo, |block|, quote);
  }

  /** The script's two while loops. */
  method ViAtRun(block: seq<string>) returns (i: nat)
    requires |block| >= 1
    ensures i == ViAt(block)
  {
    i := SkipBlankRun(block);
    if i < |block| && OpensDocstring(block[i]) {
      var quote := LStrip(block[i])[..3];
      i := PastQuoteRun(block, i + 1, quote);
    }
  }

  /** The `while vi < len(block) and block[vi].strip() == ""` loop from line 1. */
  method SkipBlankRun(block: seq<string>) returns (i: nat)
    requires |block| >= 1
    ensures i == FirstCode(block)
  {
    i := 1;
    while i < |block| && Strip(block[i]) == ""
      invariant 1 <= i <= |block|
      invariant FirstIn(block, 1, |block|, NotBlankP()) == FirstIn(block, i, |block|, NotBlankP())
    {
      i := i + 1;
    }
  }

  /** The loop that walks past the line closing the docstring. */
  method PastQuoteRun(block: seq<string>, lo: nat, quote: string) returns (i: nat)
    requires lo <= |block|
    ensures i == PastQuote(block, lo, quote)
  {
    i := lo;
    while i < |block|
      invariant lo <= i <= |block|
      invariant FirstIn(block, lo, |block|, HasText(quote)) == FirstIn(block, i, |block|, HasText(quote))
    {
      if Contains(block[i], quote) {
        i := i + 1;
        return;
      }
      i := i + 1;
    }
  }

  /** Where ViAt puts vi without a docstring: the lines between the def and the first code
      line are blank, and vi goes before that first code line. */
  lemma ViAtMeaning(block: seq<string>)
    requires |block| >= 1
    ensures forall k :: 1 <= k < FirstCode(block) ==> IsBlank(block[k])
    ensures var i := FirstCode(block);
      !(i < |block| && OpensDocstring(block[i])) ==> ViAt(block) == i
  {
    var i := FirstCode(block);
    forall k | 1 <= k < i
      ensures IsBlank(block[k])
    {
      assert !NotBlankP()(block[k]);
    }
  }

  /** Where ViAt puts vi after a docstring: right after the first later line that holds the
      quote, every line in between lacking it, or at the end of the block when no later line
      holds it. */
  lemma ViAtDocstring(block: seq<string>, i: nat, q: string, v: nat)
    requires |block| >= 1 && i == FirstCode(block) < |block| && OpensDocstring(block[i])
    requires q == QuoteOf(block[i]) && v == ViAt(block)
    ensures i < v
    ensures forall k :: i + 1 <= k < v - 1 ==> !Contains(block[k], q)
    ensures v < |block| ==> i + 1 < v && Contains(block[v - 1], q)
  {
    assert v == PastQuote(block, i + 1, q);
    PastQuoteMeaning(block, i + 1, q, v);
  }

  const ViCall := "version_info()"

  function ViLine(indent: string): string {
    indent + "vi = version_info()\n"
  }

  /** `re.match(r'^(\s*)', block_lines[1]).group(1)`, or four spaces for a one-line block. */
  function ViIndent(block: seq<string>): string {
    if |block| > 1 then Indent(block[1]) else "    "
  }

  /** `ensure_vi_in_function`: nothing to do when some line already calls `version_info()`;
      otherwise the line goes in at ViAt, the insertion point the script's two loops find. */
  function EnsureVi(block: seq<string>): (r: (seq<string>, bool))
    requires |block| >= 1
    ensures !r.1 ==> r.0 == block
  {
    if AnyIn(block, 0, |block|, HasText(ViCall)) then (block, false)
    else
      var at := ViAt(block);
      (Splice(block, at, at, [ViLine(ViIndent(block))]), true)
  }

  /** The vi line is added exactly when no line calls `version_info()`, at ViAt, and nothing
      else changes. */
  lemma EnsureViMeaning(block: seq<string>)
    requires |block| >= 1
    ensures EnsureVi(block).1 <==> forall k :: 0 <= k < |block| ==> !Contains(block[k], ViCall)
    ensures EnsureVi(block).1 ==> InsertedAt(block, EnsureVi(block).0, ViAt(block), [ViLine(ViIndent(block))])
  {
    AnyInIffFound(block, 0, |block|, HasText(ViCall));
    SpliceInserts(block, ViAt(block), [ViLine(ViIndent(block))]);
  }

  /** A one-line docstring is taken for the opening of a longer one: the scan for its closing
      quote starts on the next line, so the line after the docstring, code already, ends up
      before `vi = version_info()`; with no later line holding the quote, vi goes after the
      whole handler. */
  lemma OneLineDocstringSkipsCode(block: seq<string>)
    requires |block| >= 1
    requires var i := FirstCode(block);
      i + 1 < |block| && OpensDocstring(block[i]) && ClosesOnOpen(block[i])
      && !Contains(block[i + 1], QuoteOf(block[i]))
    ensures ViAt(block) >= FirstCode(block) + 2
    ensures var i := FirstCode(block);
      (forall k :: i < k < |block| ==> !Contains(block[k], QuoteOf(block[i]))) ==> ViAt(block) == |block|
  {
    var i := FirstCode(block);
    var q := QuoteOf(block[i]);
    if forall k :: i < k < |block| ==> !Contains(block[k], q) {
      FirstInNone(block, i + 1, |block|, HasText(q));
    }
  }

  /** The insertion point with one-line docstrings recognised. */
  function ViAtFixed(block: seq<string>): (r: nat)
    requires |block| >= 1
    ensures 1 <= r <= |block|
  {
    var i := FirstCode(block);
    if i < |block| && OpensDocstring(block[i]) && ClosesOnOpen(block[i]) then i + 1
    else ViAt(block)
  }

  /** With the fix, vi follows the docstring directly: right after a one-line docstring, and
      after the first later line holding the quote of a longer one. */
  lemma ViAtFixedMeaning(block: seq<string>)
    requires |block| >= 1
    ensures var i := FirstCode(block);
      i < |block| && OpensDocstring(block[i]) && ClosesOnOpen(block[i]) ==> ViAtFixed(block) == i + 1
    ensures var i := FirstCode(block);
      i < |block| && OpensDocstring(block[i]) && !ClosesOnOpen(block[i]) ==>
        forall k :: i < k < ViAtFixed(block) - 1 ==> !Contains(block[k], QuoteOf(block[i]))
    ensures ViAtFixed(block) <= ViAt(block)
  {
    ViAtMeaning(block);
    var i := FirstCode(block);
    if i < |block| && OpensDocstring(block[i]) {
      ViAtDocstring(block, i, QuoteOf(block[i]), ViAt(block));
    }
  }

  /** EnsureVi with one-line docstrings recognised: the line goes in at ViAtFixed. */
  function EnsureViFixed(block: seq<string>): (r: (seq<string>, bool))
    requires |block| >= 1
    ensures !r.1 ==> r.0 == block
  {
    if AnyIn(block, 0, |block|, HasText(ViCall)) then (block, false)
    else
      var at := ViAtFixed(block);
      (Splice(block, at, at, [ViLine(ViIndent(block))]), true)
  }

  /** The corrected edit adds the vi line under the same condition as the script, right after
      the docstring. */
  lemma EnsureViFixedMeaning(block: seq<string>)
    requires |block| >= 1
    ensures EnsureViFixed(block).1 <==> EnsureVi(block).1
    ensures EnsureViFixed(block).1 ==> InsertedAt(block, EnsureViFixed(block).0, ViAtFixed(block), [ViLine(ViIndent(block))])
  {
    SpliceInserts(block, ViAtFixed(block), [ViLine(ViIndent(block))]);
  }

  // ---- replace_version_key ----

  /** After the indentation: `(["'])version\2\s*:` */
  predicate KeyAfterIndent(t: string) {
    (StartsWith(t, "\"version\"") || StartsWith(t, "'version'")) && StartsWith(LStrip(t[9..]), ":")
  }

  /** `^(\s*)(["'])version\2\s*:\s*.*` */
  predicate IsVersionKey(l: string) {
    KeyAfterIndent(LStrip(l))
  }

  function VersionKeyP(): string -> bool {
    l => IsVersionKey(l)
  }

  const KeyName := "\"version\""
  const KeyTail := ": vi.get(\"version\"),\n"

  /** The six keys that replace the "version" key, before indentation. */
  const VersionKeys: seq<string> := [
    KeyName + KeyTail,
    "\"semver\": vi.get(\"semver\"),\n",
    "\"git_describe\": vi.get(\"describe\"),\n",
    "\"git_commit\": vi.get(\"commit\"),\n",
    "\"git_dirty\": vi.get(\"dirty\"),\n",
    "\"version_source\": vi.get(\"source\"),\n"
  ]

  /** `replace_version_key` for a given key test: the first key line becomes the six keys at its
      indentation. */
  function ReplaceVersionKeyWith(block: seq<string>, isKey: string -> bool): (r: (seq<string>, bool))
    ensures !r.1 ==> r.0 == block
  {
    var i := FirstIn(block, 0, |block|, isKey);
    if i == |block| then (block, false)
    else (Splice(block, i, i + 1, IndentAll(Indent(block[i]), VersionKeys)), true)
  }

  function ReplaceVersionKey(block: seq<string>): (r: (seq<string>, bool)) {
    ReplaceVersionKeyWith(block, VersionKeyP())
  }

  /** The script's `for` loop with its early return. */
  method ReplaceVersionKeyRun(block: seq<string>, isKey: string -> bool) returns (out: seq<string>, replaced: bool)
    ensures (out, replaced) == ReplaceVersionKeyWith(block, isKey)
  {
    for i := 0 to |block|
      invariant forall k :: 0 <= k < i ==> !isKey(block[k])
    {
      if isKey(block[i]) {
        var ind := block[i][..IndentLen(block[i])];
        FirstInUpTo(block, 0, i, |block|, isKey);
        return block[..i] + IndentAll(ind, VersionKeys) + block[i + 1..], true;
      }
    }
    FirstInNone(block, 0, |block|, isKey);
    return block, false;
  }

  /** A key line is replaced exactly when there is one; the first one becomes the six keys at
      its own indentation and every other line keeps its place. */
  lemma ReplaceMeaning(block: seq<string>, isKey: string -> bool)
    ensures ReplaceVersionKeyWith(block, isKey).1 <==> exists k :: 0 <= k < |block| && isKey(block[k])
    ensures ReplaceVersionKeyWith(block, isKey).1 ==> exists i ::
      && 0 <= i < |block| && isKey(block[i]) && (forall k :: 0 <= k < i ==> !isKey(block[k]))
      && var out := ReplaceVersionKeyWith(block, isKey).0;
         |out| == |block| + 5 && out[..i] == block[..i] && out[i + 6..] == block[i + 1..]
         && forall k :: 0 <= k < 6 ==> out[i + k] == Indent(block[i]) + VersionKeys[k]
  {
    AnyInIffFound(block, 0, |block|, isKey);
  }

  /** A line of whitespace followed by a non-space text strips to that text. */
  lemma LStripIndented(ind: string, x: string)
    requires (forall k :: 0 <= k < |ind| ==> IsSpace(ind[k])) && x != [] && !IsSpace(x[0])
    ensures LStrip(ind + x) == x && Indent(ind + x) == ind
  {
    PrefixLenIs(ind + x, IsSpace, |ind|);
  }

  /** The first new line is itself a "version" key line. */
  lemma FirstNewKeyIsKey(ind: string)
    requires forall k :: 0 <= k < |ind| ==> IsSpace(ind[k])
    ensures IsVersionKey(ind + VersionKeys[0])
  {
    var x := KeyName + KeyTail;
    assert VersionKeys[0] == x;
    assert x[0] == '"';
    LStripIndented(ind, x);
    assert x[..9] == KeyName && x[9..] == KeyTail;
    assert KeyTail[0] == ':';
    PrefixLenIs(KeyTail, IsSpace, 0);
    assert LStrip(KeyTail) == KeyTail;
    assert KeyAfterIndent(x);
  }

  /** The vi line is not a key line. */
  lemma ViLineNotKey(indent: string)
    requires forall k :: 0 <= k < |indent| ==> IsSpace(indent[k])
    ensures !IsVersionKey(ViLine(indent))
  {
    LStripIndented(indent, "vi = version_info()\n");
  }

  /** Nothing marks a replaced key: run again, the script replaces the first of its own six lines
      by the six keys once more, and the block grows by five lines every run. */
  lemma ReplaceAgain(block: seq<string>)
    requires ReplaceVersionKey(block).1
    ensures var out := ReplaceVersionKey(block).0;
      ReplaceVersionKey(out).1 && |ReplaceVersionKey(out).0| == |out| + 5
  {
    var i := FirstIn(block, 0, |block|, VersionKeyP());
    FirstNewKeyIsKey(Indent(block[i]));
    ReplaceAgainWith(block, VersionKeyP(), i);
  }

  /** For any key test that accepts the first new line, a second replacement finds a key. */
  lemma ReplaceAgainWith(block: seq<string>, isKey: Test, i: nat)
    requires i == FirstIn(block, 0, |block|, isKey) && i < |block|
    requires isKey(Indent(block[i]) + VersionKeys[0])
    ensures var out := ReplaceVersionKeyWith(block, isKey).0;
      ReplaceVersionKeyWith(out, isKey).1 && |ReplaceVersionKeyWith(out, isKey).0| == |out| + 5
  {
    var out := ReplaceVersionKeyWith(block, isKey).0;
    assert out[i] == Indent(block[i]) + VersionKeys[0];
    ReplaceMeaning(out, isKey);
  }

  // ---- the main flow ----

  /** Edit the handler block lines[d..e] for a given key test: insert vi, replace the version
      key; no key aborts with status 4. */
  function EditBlockWith(lines: seq<string>, d: nat, e: nat, isKey: string -> bool): (r: Outcome<seq<string>>)
    requires d < e <= |lines|
    ensures r.Exit? ==> r.code == 4
  {
    var vi := EnsureVi(lines[d..e]);
    var rk := ReplaceVersionKeyWith(vi.0, isKey);
    if !rk.1 then Exit(4) else Write(lines[..d] + rk.0 + lines[e..])
  }

  function EditBlock(lines: seq<string>, d: nat, e: nat): (r: Outcome<seq<string>>)
    requires d < e <= |lines|
    ensures r.Exit? ==> r.code == 4
  {
    EditBlockWith(lines, d, e, VersionKeyP())
  }

  /** Status 4 exactly when the block has no key line, as long as the vi line is not one. */
  lemma EditBlockWithExit(lines: seq<string>, d: nat, e: nat, isKey: string -> bool)
    requires d < e <= |lines|
    requires !isKey(ViLine(ViIndent(lines[d..e])))
    ensures EditBlockWith(lines, d, e, isKey) == Exit(4) <==> forall k :: d <= k < e ==> !isKey(lines[k])
  {
    var block := lines[d..e];
    var vi := EnsureVi(block);
    EnsureViMeaning(block);
    ReplaceMeaning(vi.0, isKey);
    if vi.1 {
      InsertKeepsAny(block, vi.0, ViAt(block), [ViLine(ViIndent(block))], isKey);
    }
    AnyInSlice(lines, d, e, isKey);
  }

  /** Status 4 exactly when the block has no "version" key line: the vi line is never one. */
  lemma EditBlockExit(lines: seq<string>, d: nat, e: nat)
    requires d < e <= |lines|
    ensures EditBlock(lines, d, e) == Exit(4) <==> forall k :: d <= k < e ==> !IsVersionKey(lines[k])
  {
    var indent := ViIndent(lines[d..e]);
    assert forall k :: 0 <= k < |indent| ==> IsSpace(indent[k]);
    ViLineNotKey(indent);
    EditBlockWithExit(lines, d, e, VersionKeyP());
  }

  /** A write keeps every line before the handler's def and from the block end on. */
  lemma EditBlockKeeps(lines: seq<string>, d: nat, e: nat, isKey: string -> bool)
    requires d < e <= |lines|
    ensures EditBlockWith(lines, d, e, isKey).Write? ==>
      var out := EditBlockWith(lines, d, e, isKey).content;
      |out| >= d + |lines| - e && out[..d] == lines[..d] && out[|out| - (|lines| - e)..] == lines[e..]
  {
  }

  /** Where the handler is, in the lines the edit is made on, or the status the script stops
      with. */
  datatype Located = Block(text: seq<string>, def: nat, end: nat) | Abort(code: int)

  /** `main` up to the edit: exit 2 without the health decorator, exit 3 without a def after it;
      the block end is searched, the helper ensured and, when added, the decorator, def and block
      end are searched again. Status 1 stands for the TypeError the search again would raise on
      a missing decorator or def (LocateNeverCrashes: it never happens). */
  function Locate(lines: seq<string>, helper: string, isDec: Test, isDef: Test, isTop: Test, isViDef: Test, isBase: Test, isApp: Test): (r: Located)
    ensures r.Block? ==> r.def < r.end <= |r.text|
  {
    var dec := FirstIn(lines, 0, |lines|, isDec);
    if dec == |lines| then Abort(2)
    else
      var def := FirstIn(lines, dec + 1, |lines|, isDef);
      if def == |lines| then Abort(3)
      else
        var ens := EnsureVersionInfoWith(lines, helper, isViDef, isBase, isApp);
        if ens.1 then Relocate(ens.0, isDec, isDef, isTop)
        else Block(lines, def, FirstIn(lines, def + 1, |lines|, isTop))
  }

  /** The searches again, on the lines with the helper. */
  function Relocate(lines2: seq<string>, isDec: Test, isDef: Test, isTop: Test): (r: Located)
    ensures r.Block? ==> r.def < r.end <= |r.text|
    ensures r.Abort? ==> r.code == 1
  {
    var dec2 := FirstIn(lines2, 0, |lines2|, isDec);
    if dec2 == |lines2| then Abort(1)
    else
      var def2 := FirstIn(lines2, dec2 + 1, |lines2|, isDef);
      if def2 == |lines2| then Abort(1)
      else Block(lines2, def2, FirstIn(lines2, def2 + 1, |lines2|, isTop))
  }

  function MainWith(lines: seq<string>, helper: string, isDec: Test, isDef: Test, isTop: Test, isViDef: Test, isBase: Test, isApp: Test): Outcome<seq<string>> {
    match Locate(lines, helper, isDec, isDef, isTop, isViDef, isBase, isApp)
    case Abort(c) => Exit(c)
    case Block(text, d, e) => EditBlock(text, d, e)
  }

  function Main(lines: seq<string>): Outcome<seq<string>> {
    MainWith(lines, Helper, l => IsHealthDecorator(l), l => IsDefSignature(l, true), l => IsTopDecorator(l),
             l => IsVersionInfoDef(l), l => IsBaseDir(l), l => IsFlaskApp(l))
  }

  /** The searches again after the helper is added always find the decorator and the def: the
      script never runs into the TypeError. */
  lemma LocateNeverCrashes(lines: seq<string>, helper: string, isDec: Test, isDef: Test, isTop: Test, isViDef: Test, isBase: Test, isApp: Test)
    ensures Locate(lines, helper, isDec, isDef, isTop, isViDef, isBase, isApp) != Abort(1)
  {
    var dec := FirstIn(lines, 0, |lines|, isDec);
    if dec < |lines| {
      var def := FirstIn(lines, dec + 1, |lines|, isDef);
      var ens := EnsureVersionInfoWith(lines, helper, isViDef, isBase, isApp);
      if def < |lines| && ens.1 {
        var lines2 := ens.0;
        var at := HelperAt(lines, isBase, isApp);
        EnsureVersionInfoMeaning(lines, helper, isViDef, isBase, isApp);
        var dec' := if dec < at then dec else dec + 1;
        var def' := if def < at then def else def + 1;
        assert lines2[dec'] == lines[dec] && lines2[def'] == lines[def];
        var dec2 := FirstIn(lines2, 0, |lines2|, isDec);
        assert dec2 <= dec';
      }
    }
  }

  /** Status 2 exactly without a decorator line; status 3 exactly when no def line follows the
      first one; never status 1. */
  lemma MainExits(lines: seq<string>, helper: string, isDec: Test, isDef: Test, isTop: Test, isViDef: Test, isBase: Test, isApp: Test)
    ensures MainWith(lines, helper, isDec, isDef, isTop, isViDef, isBase, isApp) == Exit(2) <==> forall k :: 0 <= k < |lines| ==> !isDec(lines[k])
    ensures MainWith(lines, helper, isDec, isDef, isTop, isViDef, isBase, isApp) == Exit(3) <==>
      exists dec :: 0 <= dec < |lines| && isDec(lines[dec]) && (forall k :: 0 <= k < dec ==> !isDec(lines[k]))
        && forall k :: dec < k < |lines| ==> !isDef(lines[k])
    ensures MainWith(lines, helper, isDec, isDef, isTop, isViDef, isBase, isApp) != Exit(1)
  {
    MainExitCodes(lines, helper, isDec, isDef, isTop, isViDef, isBase, isApp);
    var dec := FirstIn(lines, 0, |lines|, isDec);
    AnyInIffFound(lines, 0, |lines|, isDec);
    if dec < |lines| {
      AnyInIffFound(lines, dec + 1, |lines|, isDef);
      forall d | 0 <= d < |lines| && isDec(lines[d]) && (forall k :: 0 <= k < d ==> !isDec(lines[k]))
        ensures d == dec
      {
      }
    }
  }

  /** The exit statuses in terms of the two searches. */
  lemma MainExitCodes(lines: seq<string>, helper: string, isDec: Test, isDef: Test, isTop: Test, isViDef: Test, isBase: Test, isApp: Test)
    ensures var dec := FirstIn(lines, 0, |lines|, isDec);
      && (MainWith(lines, helper, isDec, isDef, isTop, isViDef, isBase, isApp) == Exit(2) <==> dec == |lines|)
      && (MainWith(lines, helper, isDec, isDef, isTop, isViDef, isBase, isApp) == Exit(3) <==>
            dec < |lines| && FirstIn(lines, dec + 1, |lines|, isDef) == |lines|)
      && MainWith(lines, helper, isDec, isDef, isTop, isViDef, isBase, isApp) != Exit(1)
  {
    LocateNeverCrashes(lines, helper, isDec, isDef, isTop, isViDef, isBase, isApp);
    LocateAborts(lines, helper, isDec, isDef, isTop, isViDef, isBase, isApp);
    MainExitIsAbort(lines, helper, isDec, isDef, isTop, isViDef, isBase, isApp, 1);
    MainExitIsAbort(lines, helper, isDec, isDef, isTop, isViDef, isBase, isApp, 2);
    MainExitIsAbort(lines, helper, isDec, isDef, isTop, isViDef, isBase, isApp, 3);
  }

  /** The two searches decide statuses 2 and 3 of `main` before the edit. */
  lemma LocateAborts(lines: seq<string>, helper: string, isDec: Test, isDef: Test, isTop: Test, isViDef: Test, isBase: Test, isApp: Test)
    ensures var dec := FirstIn(lines, 0, |lines|, isDec);
      && (Locate(lines, helper, isDec, isDef, isTop, isViDef, isBase, isApp) == Abort(2) <==> dec == |lines|)
      && (Locate(lines, helper, isDec, isDef, isTop, isViDef, isBase, isApp) == Abort(3) <==>
            dec < |lines| && FirstIn(lines, dec + 1, |lines|, isDef) == |lines|)
  {
  }

  /** `main` exits with a status other than 4 exactly when the search before the edit aborts
      with it. */
  lemma MainExitIsAbort(lines: seq<string>, helper: string, isDec: Test, isDef: Test, isTop: Test, isViDef: Test, isBase: Test, isApp: Test, c: int)
    requires c != 4
    ensures MainWith(lines, helper, isDec, isDef, isTop, isViDef, isBase, isApp) == Exit(c) <==>
      Locate(lines, helper, isDec, isDef, isTop, isViDef, isBase, isApp) == Abort(c)
  {
  }

  /** With `version_info()` already defined, the block edited is the input's, from the def after
      the first decorator to the next top-level decorator. */
  lemma LocateWithoutHelper(lines: seq<string>, helper: string, isDec: Test, isDef: Test, isTop: Test, isViDef: Test, isBase: Test, isApp: Test, dec: nat, def: nat, end: nat)
    requires exists k :: 0 <= k < |lines| && isViDef(lines[k])
    requires dec == FirstIn(lines, 0, |lines|, isDec) && dec < |lines|
    requires def == FirstIn(lines, dec + 1, |lines|, isDef) && def < |lines|
    requires end == FirstIn(lines, def + 1, |lines|, isTop)
    ensures Locate(lines, helper, isDec, isDef, isTop, isViDef, isBase, isApp) == Block(lines, def, end)
  {
    AnyInIffFound(lines, 0, |lines|, isViDef);
    assert EnsureVersionInfoWith(lines, helper, isViDef, isBase, isApp) == (lines, false);
  }

  /** When the helper goes in at or before the decorator and is not itself a decorator line,
      the searches again find the same handler one line further down: the block edited is the
      block of the input. */
  lemma LocateHelperBefore(lines: seq<string>, helper: string, isDec: Test, isDef: Test, isTop: Test, isViDef: Test, isBase: Test, isApp: Test, dec: nat, def: nat, end: nat)
    requires forall k :: 0 <= k < |lines| ==> !isViDef(lines[k])
    requires !isDec(helper)
    requires dec == FirstIn(lines, 0, |lines|, isDec) && dec < |lines| && HelperAt(lines, isBase, isApp) <= dec
    requires def == FirstIn(lines, dec + 1, |lines|, isDef) && def < |lines|
    requires end == FirstIn(lines, def + 1, |lines|, isTop)
    ensures Splice(lines, HelperAt(lines, isBase, isApp), HelperAt(lines, isBase, isApp), [helper])[def + 1..end + 1] == lines[def..end]
    ensures Locate(lines, helper, isDec, isDef, isTop, isViDef, isBase, isApp) == Block(Splice(lines, HelperAt(lines, isBase, isApp), HelperAt(lines, isBase, isApp), [helper]), def + 1, end + 1)
  {
    var at := HelperAt(lines, isBase, isApp);
    RelocateAfterInsert(lines, isDec, isDef, isTop, at, helper, dec, def, end);
    LocateAdded(lines, helper, isDec, isDef, isTop, isViDef, isBase, isApp, dec, def);
    SliceAfterInsert(lines, at, helper, def, end);
  }

  /** Without a `version_info()` definition, the handler is searched again on the lines with the
      helper. */
  lemma LocateAdded(lines: seq<string>, helper: string, isDec: Test, isDef: Test, isTop: Test, isViDef: Test, isBase: Test, isApp: Test, dec: nat, def: nat)
    requires forall k :: 0 <= k < |lines| ==> !isViDef(lines[k])
    requires dec == FirstIn(lines, 0, |lines|, isDec) && dec < |lines|
    requires def == FirstIn(lines, dec + 1, |lines|, isDef) && def < |lines|
    ensures Locate(lines, helper, isDec, isDef, isTop, isViDef, isBase, isApp) == Relocate(Splice(lines, HelperAt(lines, isBase, isApp), HelperAt(lines, isBase, isApp), [helper]), isDec, isDef, isTop)
  {
    AnyInIffFound(lines, 0, |lines|, isViDef);
    assert !AnyIn(lines, 0, |lines|, isViDef);
    var at := HelperAt(lines, isBase, isApp);
    assert EnsureVersionInfoWith(lines, helper, isViDef, isBase, isApp) == (Splice(lines, at, at, [helper]), true);
  }

  /** The searches again on the lines with one line inserted at or before the decorator. */
  lemma RelocateAfterInsert(lines: seq<string>, isDec: Test, isDef: Test, isTop: Test, at: nat, x: string, dec: nat, def: nat, end: nat)
    requires !isDec(x)
    requires dec == FirstIn(lines, 0, |lines|, isDec) && dec < |lines| && at <= dec
    requires def == FirstIn(lines, dec + 1, |lines|, isDef) && def < |lines|
    requires end == FirstIn(lines, def + 1, |lines|, isTop)
    ensures Relocate(Splice(lines, at, at, [x]), isDec, isDef, isTop) == Block(Splice(lines, at, at, [x]), def + 1, end + 1)
  {
    SpliceInserts(lines, at, [x]);
    RelocateInserted(lines, Splice(lines, at, at, [x]), isDec, isDef, isTop, at, x, dec, def, end);
  }

  /** The same, for any `out` that is `lines` with x inserted at `at`. */
  lemma RelocateInserted(lines: seq<string>, out: seq<string>, isDec: Test, isDef: Test, isTop: Test, at: nat, x: string, dec: nat, def: nat, end: nat)
    requires InsertedAt(lines, out, at, [x]) && !isDec(x)
    requires dec == FirstIn(lines, 0, |lines|, isDec) && dec < |lines| && at <= dec
    requires def == FirstIn(lines, dec + 1, |lines|, isDef) && def < |lines|
    requires end == FirstIn(lines, def + 1, |lines|, isTop)
    ensures Relocate(out, isDec, isDef, isTop) == Block(out, def + 1, end + 1)
  {
    ShiftedSearches(lines, out, isDec, isDef, isTop, at, x, dec, def, end);
    RelocateIs(out, isDec, isDef, isTop, dec + 1, def + 1, end + 1);
  }

  /** Each of the three searches finds its line one further down. */
  lemma ShiftedSearches(lines: seq<string>, out: seq<string>, isDec: Test, isDef: Test, isTop: Test, at: nat, x: string, dec: nat, def: nat, end: nat)
    requires InsertedAt(lines, out, at, [x]) && !isDec(x)
    requires dec == FirstIn(lines, 0, |lines|, isDec) && dec < |lines| && at <= dec
    requires def == FirstIn(lines, dec + 1, |lines|, isDef) && def < |lines|
    requires end == FirstIn(lines, def + 1, |lines|, isTop)
    ensures |out| == |lines| + 1 && FirstIn(out, 0, |out|, isDec) == dec + 1
    ensures FirstIn(out, dec + 2, |out|, isDef) == def + 1 && FirstIn(out, def + 2, |out|, isTop) == end + 1
  {
    FirstInBeforeInsertedOne(lines, out, 0, at, x, isDec);
    FirstInAfterInsertedOne(lines, out, dec + 1, at, x, isDef);
    FirstInAfterInsertedOne(lines, out, def + 1, at, x, isTop);
  }

  /** Relocate from the three searches' results. */
  lemma RelocateIs(lines2: seq<string>, isDec: Test, isDef: Test, isTop: Test, dec: nat, def: nat, end: nat)
    requires dec == FirstIn(lines2, 0, |lines2|, isDec) && dec < |lines2|
    requires def == FirstIn(lines2, dec + 1, |lines2|, isDef) && def < |lines2|
    requires end == FirstIn(lines2, def + 1, |lines2|, isTop)
    ensures Relocate(lines2, isDec, isDef, isTop) == Block(lines2, def, end)
  {
  }

  /** A range at or after the insertion point is found one line further on. */
  lemma SliceAfterInsert(lines: seq<string>, at: nat, x: string, i: nat, j: nat)
    requires at <= i <= j <= |lines|
    ensures Splice(lines, at, at, [x])[i + 1..j + 1] == lines[i..j]
  {
    var r := Splice(lines, at, at, [x]);
    assert r[at + 1..] == lines[at..];
    assert r[i + 1..j + 1] == r[at + 1..][i - at..j - at];
    assert lines[i..j] == lines[at..][i - at..j - at];
  }

  /** A text that starts with a newline and then `d` is not a decorator line. */
  lemma NewlineDefNotDecorator(h: string)
    requires |h| >= 2 && h[0] == '\n' && h[1] == 'd'
    ensures !IsHealthDecorator(h) && !IsAppDecorator(h)
  {
    PrefixLenIs(h, IsSpace, 1);
    assert LStrip(h)[0] == 'd';
  }

  /** The helper element starts with a newline and then `def`: it is not a decorator line. */
  lemma HelperNotDecorator()
    ensures !IsHealthDecorator(Helper) && !IsAppDecorator(Helper)
  {
    HeadNotDecorator(HelperRest);
  }

  lemma HeadNotDecorator(rest: string)
    ensures !IsHealthDecorator(HelperHead + rest) && !IsAppDecorator(HelperHead + rest)
  {
    var h := HelperHead + rest;
    assert h[0] == '\n' && h[1] == 'd';
    NewlineDefNotDecorator(h);
  }
}
