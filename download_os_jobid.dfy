// scripts/patch-api-download-os-jobid.py: replace the `job_id = ...` and `return jsonify(...)`
// lines that follow the download_os `start_job` call with code that normalises the job id.
// The three-group regular expression is taken as an input: the position of its first match in
// the text, if any, with the bounds of its three groups.
module DownloadOsJobId {
  import opened Common
  import opened Text
  import opened PyValue
  import opened Lines
  import opened DownloadOsReturn

  /** A match of the pattern: group 1 is text[start..g1End] (the start_job line), group 2 is
      text[g1End..g2End] (the job_id line), group 3 is text[g2End..end] (the return line). */
  datatype Hit = Hit(start: nat, g1End: nat, g2End: nat, end: nat)

  predicate HitIn(text: string, h: Hit) {
    h.start <= h.g1End <= h.g2End <= h.end <= |text|
  }

  /** The seven replacement lines, before indentation. */
  const Body: seq<string> := [
    "# start_job() may return a dict or a string; normalize to job_id\n",
    "job_id = None\n",
    "if isinstance(job, dict):\n",
    "    job_id = job.get('job_id') or job.get('id') or job.get('job') or job.get('jid')\n",
    "else:\n",
    "    job_id = str(job) if job is not None else None\n",
    "return jsonify({'ok': True, 'cached': False, 'job_id': job_id, 'job': job, 'paths': paths}), 202\n"
  ]

  /** `pat.subn(replacement, text, count=1)` for a given body: group 1 is kept, groups 2 and 3
      become the body lines at group 2's leading whitespace. No match aborts with status 1
      before anything is written; the single allowed substitution always happens after a
      successful search, so the `n != 1` abort is never reached. */
  function RewriteWith(text: string, m: Option<Hit>, body: seq<string>): (r: Outcome<string>)
    requires m.Some? ==> HitIn(text, m.value)
  {
    match m
    case None => Exit(1)
    case Some(h) =>
      var indent := Indent(text[h.g1End..h.g2End]);
      Write(text[..h.start] + text[h.start..h.g1End] + Join(IndentAll(indent, body)) + text[h.end..])
  }

  function Rewrite(text: string, m: Option<Hit>): Outcome<string>
    requires m.Some? ==> HitIn(text, m.value)
  {
    RewriteWith(text, m, Body)
  }

  /** The rewrite keeps everything before the match and the start_job line verbatim, puts each
      body line after group 2's leading whitespace, and keeps everything after the match; with
      no match nothing is written. */
  lemma RewriteShape(text: string, m: Option<Hit>, body: seq<string>)
    requires m.Some? ==> HitIn(text, m.value)
    ensures RewriteWith(text, m, body).Write? <==> m.Some?
    ensures m.None? ==> RewriteWith(text, m, body) == Exit(1)
    ensures m.Some? ==>
      var h := m.value;
      var indent := Indent(text[h.g1End..h.g2End]);
      var out := RewriteWith(text, m, body).content;
      && out[..h.g1End] == text[..h.g1End]
      && out == text[..h.g1End] + Join(IndentAll(indent, body)) + text[h.end..]
      && (forall c :: c in indent ==> IsSpace(c))
      && |indent| <= h.g2End - h.g1End
  {
    if m.Some? {
      var h := m.value;
      assert text[..h.start] + text[h.start..h.g1End] == text[..h.g1End];
    }
  }

  /** Each indented body line starts with the indent and ends with the body line. */
  lemma IndentedLines(indent: string, body: seq<string>, k: nat)
    requires k < |body|
    ensures StartsWith(IndentAll(indent, body)[k], indent) && EndsWith(IndentAll(indent, body)[k], body[k])
  {
  }

  /** The first truthy value of a list, or its last value when none is truthy: Python's
      `a or b or c or d`. */
  function FirstTruthy(vs: seq<Json>): (r: Json)
    requires |vs| > 0
    decreases |vs|
  {
    if |vs| == 1 || Truthy(vs[0]) then vs[0] else FirstTruthy(vs[1..])
  }

  /** What FirstTruthy picks: a truthy value preceded only by falsy ones, or the last value when
      every value is falsy. */
  lemma {:induction false} FirstTruthyMeaning(vs: seq<Json>)
    requires |vs| > 0
    ensures (exists k :: 0 <= k < |vs| && Truthy(vs[k])) ==>
      exists k :: 0 <= k < |vs| && FirstTruthy(vs) == vs[k] && Truthy(vs[k]) &&
        forall j :: 0 <= j < k ==> !Truthy(vs[j])
    ensures (forall k :: 0 <= k < |vs| ==> !Truthy(vs[k])) ==> FirstTruthy(vs) == vs[|vs| - 1]
    decreases |vs|
  {
    if |vs| > 1 && !Truthy(vs[0]) {
      FirstTruthyMeaning(vs[1..]);
      if exists k :: 0 <= k < |vs| && Truthy(vs[k]) {
        var k :| 0 <= k < |vs| && Truthy(vs[k]);
        assert vs[1..][k - 1] == vs[k];
        var k' :| 0 <= k' < |vs| - 1 && FirstTruthy(vs[1..]) == vs[1..][k'] && Truthy(vs[1..][k']) &&
          forall j :: 0 <= j < k' ==> !Truthy(vs[1..][j]);
        assert forall j :: 1 <= j < k' + 1 ==> vs[j] == vs[1..][j - 1];
        assert FirstTruthy(vs) == vs[k' + 1];
      } else {
        assert vs[1..][|vs| - 2] == vs[|vs| - 1];
      }
    } else if |vs| > 1 {
      assert FirstTruthy(vs) == vs[0];
    }
  }

  /** The injected normalisation: for a dict, the first truthy of job_id, id, job and jid
      (the value of jid when none is); `str(job)` for any other value except None; None for
      None. */
  function NormalizedJobId(job: Json): (r: Json)
  {
    if job.JDict? then
      Or(Or(Or(Get(job, "job_id"), Get(job, "id")), Get(job, "job")), Get(job, "jid"))
    else if job.JNull? then JNull
    else JStr(PyStr(job))
  }

  /** The `or` chain is the first truthy of the four keys, and only None maps to None among
      non-dict jobs. */
  lemma NormalizedJobIdMeaning(job: Json)
    ensures job.JDict? ==>
      NormalizedJobId(job) == FirstTruthy([Get(job, "job_id"), Get(job, "id"), Get(job, "job"), Get(job, "jid")])
    ensures !job.JDict? ==> (NormalizedJobId(job) == JNull <==> job == JNull)
    ensures !job.JDict? && !job.JNull? ==> NormalizedJobId(job) == JStr(PyStr(job))
  {
    if job.JDict? {
      var vs := [Get(job, "job_id"), Get(job, "id"), Get(job, "job"), Get(job, "jid")];
      assert vs[1..] == [Get(job, "id"), Get(job, "job"), Get(job, "jid")];
      assert vs[1..][1..] == [Get(job, "job"), Get(job, "jid")];
      assert vs[1..][1..][1..] == [Get(job, "jid")];
      var a, b, c, d := vs[0], vs[1], vs[2], vs[3];
      assert FirstTruthy(vs[1..][1..]) == if Truthy(c) then c else d;
      assert FirstTruthy(vs[1..]) == if Truthy(b) then b else FirstTruthy(vs[1..][1..]);
      assert FirstTruthy(vs) == if Truthy(a) then a else FirstTruthy(vs[1..]);
    }
  }

  /** The reply the rewritten handler gives: status 202 and a body carrying the normalised job
      id next to the job itself. */
  function Reply(job: Json, paths: Json): (r: (Json, int))
    ensures r.0.JDict? && r.1 == 202
    ensures Get(r.0, "ok") == JBool(true) && Get(r.0, "cached") == JBool(false)
    ensures Get(r.0, "job_id") == NormalizedJobId(job) && Get(r.0, "job") == job && Get(r.0, "paths") == paths
    ensures r.0.fields.Keys == {"ok", "cached", "job_id", "job", "paths"}
  {
    (JDict(map["ok" := JBool(true), "cached" := JBool(false), "job_id" := NormalizedJobId(job),
               "job" := job, "paths" := paths]), 202)
  }

  /** The normalisation agrees with the lines it replaces whenever those already gave a usable
      id: for a string job, and for a dict whose job_id is truthy. */
  lemma NormalizedAgreesWithReturned(job: Json)
    requires job.JStr? || (job.JDict? && Truthy(Get(job, "job_id")))
    ensures NormalizedJobId(job) == ReturnedJobId(job)
  {
  }

  /** A dict that carries its id under "id" with a falsy job_id: the replaced lines gave the
      falsy job_id, the normalisation gives the id. */
  lemma NormalizedFindsId(job: Json)
    requires job.JDict? && !Truthy(Get(job, "job_id")) && Truthy(Get(job, "id"))
    ensures NormalizedJobId(job) == Get(job, "id") && ReturnedJobId(job) == Get(job, "job_id")
    ensures NormalizedJobId(job) != ReturnedJobId(job)
  {
  }
}
