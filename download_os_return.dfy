// scripts/patch-api-download-os-return.py: after the first line that starts the download_os
// job, add a blank line, a `job_id` line and a `return jsonify(...)` line, unless some line
// already returns `cached: False` with a job id.
module DownloadOsReturn {
  import opened Common
  import opened Text
  import opened PyValue
  import opened Lines
  import opened AppLines

  const Needle := "job = start_job(\"download_os\", script, {\"os_id\": os_id, \"url\": url, \"out\": paths[\"bin\"]})"

  /** The already-patched test: a line with `cached": False` and `job_id` that is not the route
      decorator. */
  predicate AlreadyReturns(l: string) {
    Contains(l, CachedFalse) && Contains(l, "job_id") && !Contains(l, "/api/download_os")
  }

  function AlreadyP(): string -> bool {
    l => AlreadyReturns(l)
  }

  const JobIdLine := "job_id = job.get(\"job_id\") if isinstance(job, dict) else job\n"

  const CachedFalse := "cached\": False"
  const ReturnHead := "return jsonify({\"ok\": True, \""
  const ReturnTail := "\": job_id, \"paths\": paths}), 202\n"

  /** The return line, cut where the already-patched test looks. */
  const ReturnLine := ReturnHead + CachedFalse + ", \"" + "job_id" + ReturnTail

  /** The three appended lines at the needle line's indentation. */
  function Added(indent: string): (r: seq<string>)
    ensures |r| == 3 && r[0] == "\n" && r[1] == indent + JobIdLine && r[2] == indent + ReturnLine
  {
    ["\n", indent + JobIdLine, indent + ReturnLine]
  }

  /** What the script does to the lines of app/app.py. */
  function Patch(lines: seq<string>): Outcome<seq<string>> {
    if AnyIn(lines, 0, |lines|, AlreadyP()) then Exit(0)
    else
      var i := FirstIn(lines, 0, |lines|, HasText(Needle));
      if i == |lines| then Exit(1)
      else Write(Splice(lines, i + 1, i + 1, Added(Indent(lines[i]))))
  }

  function AddedP(): string -> seq<string> {
    indent => Added(indent)
  }

  /** The script's `for line in s` loop with its `patched` flag, for a given needle test and
      given added lines: copy every line and add the lines after the first needle line. */
  method CopyPatched(lines: seq<string>, hit: string -> bool, added: string -> seq<string>)
    returns (out: seq<string>, patched: bool, ghost at: nat)
    ensures !patched ==> out == lines && forall j :: 0 <= j < |lines| ==> !hit(lines[j])
    ensures patched ==> at < |lines| && hit(lines[at])
    ensures patched ==> forall j :: 0 <= j < at ==> !hit(lines[j])
    ensures patched ==> out == lines[..at + 1] + added(Indent(lines[at])) + lines[at + 1..]
  {
    out := [];
    patched := false;
    at := 0;
    for k := 0 to |lines|
      invariant !patched ==> out == lines[..k] && forall j :: 0 <= j < k ==> !hit(lines[j])
      invariant patched ==> at < k && hit(lines[at])
      invariant patched ==> forall j :: 0 <= j < at ==> !hit(lines[j])
      invariant patched ==> out == lines[..at + 1] + added(Indent(lines[at])) + lines[at + 1..k]
    {
      out := out + [lines[k]];
      if !patched && hit(lines[k]) {
        var indent := lines[k][..|lines[k]| - |LStrip(lines[k])|];
        assert indent == Indent(lines[k]);
        out := out + added(indent);
        assert out == lines[..k + 1] + added(indent) + lines[k + 1..k + 1];
        patched := true;
        at := k;
      }
    }
    assert lines[..|lines|] == lines;
  }

  method PatchRun(lines: seq<string>) returns (r: Outcome<seq<string>>)
    ensures r == Patch(lines)
  {
    if AnyIn(lines, 0, |lines|, AlreadyP()) {
      return Exit(0);
    }
    var out, patched, at := CopyPatched(lines, HasText(Needle), AddedP());
    if !patched {
      FirstInNone(lines, 0, |lines|, HasText(Needle));
      return Exit(1);
    }
    FirstInUpTo(lines, 0, at, |lines|, HasText(Needle));
    return Write(out);
  }

  /** The outcomes: nothing to do when a line already returns a job id; an abort without writing
      when no line holds the needle; otherwise the three lines go right after the first needle
      line, at its indentation, and every other line keeps its place. */
  lemma PatchMeaning(lines: seq<string>)
    ensures Patch(lines) == Exit(0) <==> exists k :: 0 <= k < |lines| && AlreadyReturns(lines[k])
    ensures Patch(lines) == Exit(1) <==>
      (forall k :: 0 <= k < |lines| ==> !AlreadyReturns(lines[k]) && !Contains(lines[k], Needle))
    ensures Patch(lines).Write? ==> exists i ::
      && 0 <= i < |lines| && Contains(lines[i], Needle)
      && (forall k :: 0 <= k < i ==> !Contains(lines[k], Needle))
      && InsertedAt(lines, Patch(lines).content, i + 1, Added(Indent(lines[i])))
  {
    AnyInIffFound(lines, 0, |lines|, AlreadyP());
    var i := FirstIn(lines, 0, |lines|, HasText(Needle));
    AnyInIffFound(lines, 0, |lines|, HasText(Needle));
    if Patch(lines).Write? {
      SpliceInserts(lines, i + 1, Added(Indent(lines[i])));
    }
  }

  /** Every added line starts with the needle line's leading whitespace, and that prefix is
      whitespace only. */
  lemma AddedIndented(l: string)
    ensures forall k :: 1 <= k < 3 ==> StartsWith(Added(Indent(l))[k], Indent(l))
    ensures forall c :: c in Indent(l) ==> IsSpace(c)
  {
  }

  lemma ReturnLineHasCached()
    ensures Contains(ReturnLine, CachedFalse)
  {
    var afterHead := CachedFalse + ", \"" + "job_id" + ReturnTail;
    assert ReturnLine == ReturnHead + afterHead;
    ContainsInLeft(CachedFalse, ", \"" + "job_id" + ReturnTail, CachedFalse);
    assert afterHead == CachedFalse + (", \"" + "job_id" + ReturnTail);
    ContainsInRight(ReturnHead, afterHead, CachedFalse);
  }

  lemma ReturnLineHasJobId()
    ensures Contains(ReturnLine, "job_id")
  {
    ContainsInLeft("job_id", ReturnTail, "job_id");
    ContainsInRight(ReturnHead + CachedFalse + ", \"", "job_id" + ReturnTail, "job_id");
    assert ReturnLine == (ReturnHead + CachedFalse + ", \"") + ("job_id" + ReturnTail);
  }

  lemma ReturnLineNoSlash()
    ensures '/' !in ReturnLine
  {
    assert '/' !in ReturnHead && '/' !in CachedFalse && '/' !in ReturnTail;
    assert '/' !in ", \"" + "job_id";
  }

  /** The added return line passes the already-patched test. */
  lemma ReturnLineIsAlready(indent: string)
    requires forall c :: c in indent ==> IsSpace(c)
    ensures AlreadyReturns(indent + ReturnLine)
  {
    ReturnLineHasCached();
    ReturnLineHasJobId();
    ReturnLineNoSlash();
    ContainsInRight(indent, ReturnLine, CachedFalse);
    ContainsInRight(indent, ReturnLine, "job_id");
    assert "/api/download_os"[0] == '/';
    MissingCharNoText(indent + ReturnLine, "/api/download_os", '/');
  }

  /** A second run finds its own return line and changes nothing. */
  lemma PatchRerun(lines: seq<string>)
    requires Patch(lines).Write?
    ensures Patch(Patch(lines).content) == Exit(0)
  {
    var i := FirstIn(lines, 0, |lines|, HasText(Needle));
    var indent := Indent(lines[i]);
    var out := Patch(lines).content;
    assert out[i + 3] == indent + ReturnLine;
    AddedIndented(lines[i]);
    ReturnLineIsAlready(indent);
    AnyInIffFound(out, 0, |out|, AlreadyP());
  }

  /** The job id the added lines compute: `job.get("job_id")` for a dict, the job itself
      otherwise. */
  function ReturnedJobId(job: Json): (r: Json)
    ensures job.JDict? ==> r == Get(job, "job_id")
    ensures !job.JDict? ==> r == job
  {
    if job.JDict? then Get(job, "job_id") else job
  }
}
