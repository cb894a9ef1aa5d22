// scripts/restore-missing-helpers.py: when app/app.py lacks the module-level functions
// `detect_mode` and `safety_state`, copy them from the most recent earlier version of the file
// that still has both, inserting them before the /api/health route. The earlier versions come
// from git; here they are an input list, newest first, where None stands for a version that
// could not be read.
module RestoreHelpers {
  import opened Common
  import opened Text
  import opened LinePattern
  import opened Lines

  /** `^def {name}\s*\(` at the start of a line. */
  function DefPattern(name: string): seq<Piece> {
    [Lit("def " + name), Ws(0), Lit("(")]
  }

  predicate IsDefOf(l: string, name: string) {
    Matches(l, DefPattern(name))
  }

  /** A `def name(` line starts with `def name`. */
  lemma DefOfStarts(l: string, name: string)
    requires IsDefOf(l, name)
    ensures StartsWith(l, "def " + name)
  {
    assert DefPattern(name)[0] == Lit("def " + name);
  }

  function DefP(name: string): string -> bool {
    l => IsDefOf(l, name)
  }

  /** `^(@|def|class)\b`: a top-level decorator, def or class ends a block. */
  predicate StopsBlock(l: string) {
    Matches(l, [Lit("@"), Boundary]) || Matches(l, [Lit("def"), Boundary]) || Matches(l, [Lit("class"), Boundary])
  }

  function StopP(): string -> bool {
    l => StopsBlock(l)
  }

  /** The end of the block that starts at line s: the first later stop line, or the end. */
  function BlockEnd(lines: seq<string>, s: nat): nat
    requires s < |lines|
  {
    FirstIn(lines, s + 1, |lines|, StopP())
  }

  /** `extract_block`: the first `def name(` line and the lines after it up to the next stop
      line, right-stripped and followed by exactly one blank line. */
  function ExtractBlock(lines: seq<string>, name: string): Option<string> {
    var s := FirstIn(lines, 0, |lines|, DefP(name));
    if s == |lines| then None
    else Some(RStrip(Join(lines[s..BlockEnd(lines, s)])) + "\n\n")
  }

  /** The loop of `extract_block`, appending lines until a stop line. */
  method ExtractBlockRun(lines: seq<string>, name: string) returns (r: Option<string>)
    ensures r == ExtractBlock(lines, name)
  {
    var s := FindFirst(lines, 0, |lines|, DefP(name));
    if s == |lines| {
      return None;
    }
    var out := CollectBlock(lines, s, StopP());
    return Some(RStrip(Join(out)) + "\n\n");
  }

  /** `out = [lines[0]]` and the `for line in lines[1:]` loop that appends until a line that
      passes `stop` (a stop line, in the script). */
  method CollectBlock(lines: seq<string>, s: nat, stop: string -> bool) returns (out: seq<string>)
    requires s < |lines|
    ensures out == lines[s..FirstIn(lines, s + 1, |lines|, stop)]
  {
    out := [lines[s]];
    var k := s + 1;
    while k < |lines| && !stop(lines[k])
      invariant s + 1 <= k <= |lines|
      invariant out == lines[s..k]
      invariant FirstIn(lines, s + 1, |lines|, stop) == FirstIn(lines, k, |lines|, stop)
    {
      out := out + [lines[k]];
      k := k + 1;
    }
  }

  /** Right-stripping keeps a prefix that ends in a non-space character. */
  lemma RStripKeepsPrefix(x: string, p: string)
    requires p <= x && p != [] && !IsSpace(p[|p| - 1])
    ensures p <= RStrip(x)
  {
    var r := RStrip(x);
    assert |p| <= |r|;
    assert r[..|p|] == x[..|p|];
  }

  /** The joined lines start with the first line. */
  lemma JoinStartsWithFirst(xs: seq<string>)
    requires xs != []
    ensures xs[0] <= Join(xs)
  {
  }

  /** A text that starts with `p` (ending in a non-space), right-stripped and followed by two
      newlines, still starts with `p` and has a non-space right before the two newlines. */
  lemma BlockTextShape(x: string, p: string)
    requires p <= x && p != [] && !IsSpace(p[|p| - 1])
    ensures var b := RStrip(x) + "\n\n";
      StartsWith(b, p) && EndsWith(b, "\n\n") && !IsSpace(b[|b| - 3])
  {
    RStripKeepsPrefix(x, p);
    var r := RStrip(x);
    var b := r + "\n\n";
    assert b[..|r|] == r;
    assert b[..|p|] == p;
    assert b[|b| - 3] == r[|r| - 1];
  }

  /** `extract_block` gives None exactly when no line is a `def name(` line. */
  lemma ExtractBlockNone(lines: seq<string>, name: string)
    ensures ExtractBlock(lines, name).None? <==> forall k :: 0 <= k < |lines| ==> !IsDefOf(lines[k], name)
  {
    AnyInIffFound(lines, 0, |lines|, DefP(name));
  }

  /** What `extract_block` returns: None exactly when no line is a `def name(` line; otherwise
      the text of the lines from the first such line up to the first later stop line, which
      begins with `def name` and ends in exactly two newlines. */
  lemma ExtractBlockMeaning(lines: seq<string>, name: string)
    requires IsIdentifier(name)
    ensures ExtractBlock(lines, name).None? <==> forall k :: 0 <= k < |lines| ==> !IsDefOf(lines[k], name)
    ensures ExtractBlock(lines, name).Some? ==>
      var b := ExtractBlock(lines, name).value;
      var s := FirstIn(lines, 0, |lines|, DefP(name));
      && s < |lines| && IsDefOf(lines[s], name)
      && (forall k :: s < k < BlockEnd(lines, s) ==> !StopsBlock(lines[k]))
      && (BlockEnd(lines, s) == |lines| || StopsBlock(lines[BlockEnd(lines, s)]))
      && b == RStrip(Join(lines[s..BlockEnd(lines, s)])) + "\n\n"
      && StartsWith(b, "def " + name)
      && EndsWith(b, "\n\n") && !IsSpace(b[|b| - 3])
  {
    ExtractBlockNone(lines, name);
    var s := FirstIn(lines, 0, |lines|, DefP(name));
    if s < |lines| {
      DefFound(lines, name, s);
      BlockEndMeaning(lines, s);
      BlockStartsWithDef(lines, name, s);
      ExtractBlockIs(lines, name, s);
    }
  }

  /** With the `def name(` line found at s, the result is the text of the block from s. */
  lemma ExtractBlockIs(lines: seq<string>, name: string, s: nat)
    requires s == FirstIn(lines, 0, |lines|, DefP(name)) < |lines|
    ensures ExtractBlock(lines, name) == Some(RStrip(Join(lines[s..BlockEnd(lines, s)])) + "\n\n")
  {
  }

  /** The search for the `def name(` line stops on such a line. */
  lemma DefFound(lines: seq<string>, name: string, s: nat)
    requires s == FirstIn(lines, 0, |lines|, DefP(name)) < |lines|
    ensures IsDefOf(lines[s], name)
  {
    assert DefP(name)(lines[s]);
  }

  /** The block runs over non-stop lines up to a stop line or the end. */
  lemma BlockEndMeaning(lines: seq<string>, s: nat)
    requires s < |lines|
    ensures forall k :: s < k < BlockEnd(lines, s) ==> !StopsBlock(lines[k])
    ensures BlockEnd(lines, s) == |lines| || StopsBlock(lines[BlockEnd(lines, s)])
  {
    var e := BlockEnd(lines, s);
    forall k | s < k < e
      ensures !StopsBlock(lines[k])
    {
      assert !StopP()(lines[k]);
    }
    if e < |lines| {
      assert StopP()(lines[e]);
    }
  }

  /** The extracted text of a block that opens on a `def name(` line starts with `def name`
      and ends in a non-space character and two newlines. */
  lemma BlockStartsWithDef(lines: seq<string>, name: string, s: nat)
    requires IsIdentifier(name) && s < |lines| && IsDefOf(lines[s], name)
    ensures var b := RStrip(Join(lines[s..BlockEnd(lines, s)])) + "\n\n";
      StartsWith(b, "def " + name) && EndsWith(b, "\n\n") && !IsSpace(b[|b| - 3])
  {
    var block := lines[s..BlockEnd(lines, s)];
    assert block[0] == lines[s];
    JoinStartsWithFirst(block);
    DefOfStarts(lines[s], name);
    BlockTextShape(Join(block), "def " + name);
  }

  /** Whether the file has a module-level `def name(` line. */
  predicate HasDef(lines: seq<string>, name: string) {
    AnyIn(lines, 0, |lines|, DefP(name))
  }

  /** The names of `need` without a module-level def, in the order of `need`. */
  function Missing(lines: seq<string>, need: seq<string>): seq<string>
    decreases |need|
  {
    if need == [] then []
    else
      var last := need[|need| - 1];
      Missing(lines, need[..|need| - 1]) + (if HasDef(lines, last) then [] else [last])
  }

  /** Missing keeps exactly the needed names that lack a def, without adding any. */
  lemma {:induction false} MissingMeaning(lines: seq<string>, need: seq<string>)
    ensures forall n :: n in Missing(lines, need) <==> n in need && !HasDef(lines, n)
    ensures |Missing(lines, need)| <= |need|
    decreases |need|
  {
    if need != [] {
      var init := need[..|need| - 1];
      MissingMeaning(lines, init);
      assert need == init + [need[|need| - 1]];
    }
  }

  /** When every needed name has a def, nothing is missing. */
  lemma {:induction false} NothingMissing(lines: seq<string>, need: seq<string>)
    requires forall k :: 0 <= k < |need| ==> HasDef(lines, need[k])
    ensures Missing(lines, need) == []
    decreases |need|
  {
    if need != [] {
      NothingMissing(lines, need[..|need| - 1]);
    }
  }

  /** The `for n in need` loop of `main`. */
  method MissingRun(lines: seq<string>, need: seq<string>) returns (missing: seq<string>)
    ensures missing == Missing(lines, need)
  {
    missing := [];
    for i := 0 to |need|
      invariant missing == Missing(lines, need[..i])
    {
      assert need[..i + 1][..i] == need[..i];
      if !AnyIn(lines, 0, |lines|, DefP(need[i])) {
        missing := missing + [need[i]];
      }
    }
    assert need[..|need|] == need;
  }

  /** The result of `ex` for every name, in order, or None when it fails for one of them. */
  function AllOf(names: seq<string>, ex: string -> Option<string>): Option<seq<string>>
    decreases |names|
  {
    if names == [] then Some([])
    else
      match AllOf(names[..|names| - 1], ex)
      case None => None
      case Some(bs) =>
        match ex(names[|names| - 1])
        case None => None
        case Some(b) => Some(bs + [b])
  }

  /** Every name extracted from one file, in order, or None when one of them is absent. */
  function ExtractAll(lines: seq<string>, names: seq<string>): Option<seq<string>> {
    AllOf(names, n => ExtractBlock(lines, n))
  }

  /** All names succeed exactly when each of them does. */
  lemma {:induction false} AllOfSome(names: seq<string>, ex: string -> Option<string>)
    ensures AllOf(names, ex).Some? <==> forall k :: 0 <= k < |names| ==> ex(names[k]).Some?
    decreases |names|
  {
    if names != [] {
      var init := names[..|names| - 1];
      AllOfSome(init, ex);
      assert forall k :: 0 <= k < |init| ==> init[k] == names[k];
    }
  }

  /** The results come in name order, one per name. */
  lemma {:induction false} AllOfValues(names: seq<string>, ex: string -> Option<string>)
    requires AllOf(names, ex).Some?
    ensures var bs := AllOf(names, ex).value;
      |bs| == |names| && forall k :: 0 <= k < |names| ==> Some(bs[k]) == ex(names[k])
    decreases |names|
  {
    if names != [] {
      var init := names[..|names| - 1];
      AllOfValues(init, ex);
      var bs0 := AllOf(init, ex).value;
      var b := ex(names[|names| - 1]).value;
      assert AllOf(names, ex).value == bs0 + [b];
      assert forall k :: 0 <= k < |init| ==> init[k] == names[k];
    }
  }

  /** The names all extract from a file exactly when each of them does, and the blocks come in
      name order. */
  lemma ExtractAllMeaning(lines: seq<string>, names: seq<string>)
    ensures ExtractAll(lines, names).Some? <==> forall k :: 0 <= k < |names| ==> ExtractBlock(lines, names[k]).Some?
    ensures ExtractAll(lines, names).Some? ==>
      var bs := ExtractAll(lines, names).value;
      |bs| == |names| && forall k :: 0 <= k < |names| ==> Some(bs[k]) == ExtractBlock(lines, names[k])
  {
    AllOfSome(names, n => ExtractBlock(lines, n));
    if ExtractAll(lines, names).Some? {
      AllOfValues(names, n => ExtractBlock(lines, n));
    }
  }

  /** The inner loop of `find_in_history` over the names. */
  method ExtractAllRun(lines: seq<string>, names: seq<string>) returns (r: Option<seq<string>>)
    ensures r == ExtractAll(lines, names)
  {
    var got: seq<string> := [];
    for i := 0 to |names|
      invariant ExtractAll(lines, names[..i]) == Some(got)
    {
      assert names[..i + 1][..i] == names[..i];
      var blk := ExtractBlockRun(lines, names[i]);
      if blk.None? {
        AllOfFails(names, n => ExtractBlock(lines, n), i + 1);
        assert names[..|names|] == names;
        return None;
      }
      got := got + [blk.value];
    }
    assert names[..|names|] == names;
    return Some(got);
  }

  /** A prefix of the names that fails makes the whole list fail. */
  lemma {:induction false} AllOfFails(names: seq<string>, ex: string -> Option<string>, i: nat)
    requires i <= |names| && AllOf(names[..i], ex).None?
    ensures AllOf(names, ex).None?
    decreases |names| - i
  {
    if i < |names| {
      assert names[..i + 1][..i] == names[..i];
      AllOfFails(names, ex, i + 1);
    } else {
      assert names[..i] == names;
    }
  }

  /** `find_in_history` from candidate k on: the first readable version where every name
      extracts, with its position and the blocks in name order. */
  function FindFrom(names: seq<string>, versions: seq<Option<seq<string>>>, k: nat): (r: Option<(nat, seq<string>)>)
    requires k <= |versions|
    decreases |versions| - k
  {
    if k == |versions| then None
    else if versions[k].Some? && ExtractAll(versions[k].value, names).Some? then
      Some((k, ExtractAll(versions[k].value, names).value))
    else FindFrom(names, versions, k + 1)
  }

  function FindInHistory(names: seq<string>, versions: seq<Option<seq<string>>>): Option<(nat, seq<string>)> {
    FindFrom(names, versions, 0)
  }

  /** The version found is the first one, newest first, that is readable and has every name. */
  lemma {:induction false} FindFromMeaning(names: seq<string>, versions: seq<Option<seq<string>>>, k: nat)
    requires k <= |versions|
    ensures var r := FindFrom(names, versions, k);
      r.Some? ==> && k <= r.value.0 < |versions| && versions[r.value.0].Some?
                  && ExtractAll(versions[r.value.0].value, names) == Some(r.value.1)
    ensures var r := FindFrom(names, versions, k);
      forall j :: k <= j < (if r.Some? then r.value.0 else |versions|) ==>
        versions[j].None? || ExtractAll(versions[j].value, names).None?
    decreases |versions| - k
  {
    if k < |versions| {
      FindFromMeaning(names, versions, k + 1);
    }
  }

  /** The outer loop of `find_in_history` over the versions. */
  method FindInHistoryRun(names: seq<string>, versions: seq<Option<seq<string>>>) returns (r: Option<(nat, seq<string>)>)
    ensures r == FindInHistory(names, versions)
  {
    for k := 0 to |versions|
      invariant FindFrom(names, versions, k) == FindInHistory(names, versions)
    {
      if versions[k].Some? {
        var got := ExtractAllRun(versions[k].value, names);
        if got.Some? {
          return Some((k, got.value));
        }
      }
    }
    return None;
  }

  /** `^@app\.(get|route)\(["']/api/health`, and the `/api/` fallback. */
  predicate RouteLineFor(l: string, path: string) {
    || StartsWith(l, "@app.get(\"" + path) || StartsWith(l, "@app.get('" + path)
    || StartsWith(l, "@app.route(\"" + path) || StartsWith(l, "@app.route('" + path)
  }

  function RouteP(path: string): string -> bool {
    l => RouteLineFor(l, path)
  }

  /** Where the helpers go: before the /api/health route, else before the first /api/ route,
      else at the end. */
  function InsertAt(lines: seq<string>): (i: nat)
    ensures i <= |lines|
  {
    var h := FirstIn(lines, 0, |lines|, RouteP("/api/health"));
    if h < |lines| then h else FirstIn(lines, 0, |lines|, RouteP("/api/"))
  }

  const Need := ["detect_mode", "safety_state"]
  const Header := "\n\n# === restored helper(s) from history ===\n"

  /** `main`: exit 2 without the file, exit 0 with nothing missing, exit 3 when no version has
      every missing name; otherwise write the file with the blocks, in missing order, spliced in
      before the insertion line. */
  function Restore(current: Option<seq<string>>, versions: seq<Option<seq<string>>>): (r: Outcome<string>) {
    if current.None? then Exit(2)
    else
      var lines := current.value;
      var missing := Missing(lines, Need);
      if missing == [] then Exit(0)
      else
        match FindInHistory(missing, versions)
        case None => Exit(3)
        case Some((_, blocks)) =>
          var i := InsertAt(lines);
          Write(Join(lines[..i]) + Header + Join(blocks) + Join(lines[i..]))
  }

  /** Nothing is written when both helpers are present: exactly then the script exits 0. */
  lemma RestoreNothingToDo(current: Option<seq<string>>, versions: seq<Option<seq<string>>>)
    ensures Restore(current, versions) == Exit(0) <==>
      current.Some? && forall k :: 0 <= k < |Need| ==> HasDef(current.value, Need[k])
  {
    if current.Some? {
      var lines := current.value;
      MissingMeaning(lines, Need);
      if forall k :: 0 <= k < |Need| ==> HasDef(lines, Need[k]) {
        NothingMissing(lines, Need);
      } else {
        var k :| 0 <= k < |Need| && !HasDef(lines, Need[k]);
        assert Need[k] in Missing(lines, Need);
      }
    }
  }

  /** A written file is the old text cut at the insertion line, with the header and the blocks
      of the missing helpers, taken from the version found, in between. */
  lemma RestoreWrites(current: Option<seq<string>>, versions: seq<Option<seq<string>>>)
    ensures Restore(current, versions).Write? ==>
      && current.Some? && Missing(current.value, Need) != []
      && FindInHistory(Missing(current.value, Need), versions).Some?
      && FindInHistory(Missing(current.value, Need), versions).value.0 < |versions|
      && versions[FindInHistory(Missing(current.value, Need), versions).value.0].Some?
    ensures Restore(current, versions).Write? ==>
      var lines := current.value;
      var i := InsertAt(lines);
      var missing := Missing(lines, Need);
      var f := FindInHistory(missing, versions).value;
      && Join(lines[..i]) + Join(lines[i..]) == Join(lines)
      && Restore(current, versions).content == Join(lines[..i]) + Header + Join(f.1) + Join(lines[i..])
      && |f.1| == |missing|
      && (forall k :: 0 <= k < |missing| ==> Some(f.1[k]) == ExtractBlock(versions[f.0].value, missing[k]))
  {
    if Restore(current, versions).Write? {
      var lines := current.value;
      var missing := Missing(lines, Need);
      var found := FindInHistory(missing, versions);
      FindFromMeaning(missing, versions, 0);
      var f := found.value;
      ExtractAllMeaning(versions[f.0].value, missing);
      JoinSplit(lines, InsertAt(lines));
    }
  }

  /** The insertion line is the first /api/health route line when there is one, else the first
      /api/ route line, else the end of the file. */
  lemma InsertAtMeaning(lines: seq<string>)
    ensures (exists k :: 0 <= k < |lines| && RouteLineFor(lines[k], "/api/health")) ==>
      InsertAt(lines) < |lines| && RouteLineFor(lines[InsertAt(lines)], "/api/health") &&
      forall k :: 0 <= k < InsertAt(lines) ==> !RouteLineFor(lines[k], "/api/health")
    ensures (forall k :: 0 <= k < |lines| ==> !RouteLineFor(lines[k], "/api/health")) ==>
      InsertAt(lines) == FirstIn(lines, 0, |lines|, RouteP("/api/"))
  {
    AnyInIffFound(lines, 0, |lines|, RouteP("/api/health"));
  }
}
