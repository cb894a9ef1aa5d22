// The "rc wins" status reconciliation that several patch scripts inject into the job code of
// app/app.py. A job's worker writes its exit code to cache/jobs/<id>.rc when it finishes; the
// injected code lets that file override whatever the job record says. Each variant is a pure
// function of the job record, what the rc file probe returns and which pids are alive.
module JobStatus {
  import opened Common
  import opened Text
  import opened PyValue
  import opened JobId

  /** What probing the job's rc file gives: no such file, its (decoded) text, or an exception
      raised while reading it, with the exception's message. */
  datatype RcFile = NoFile | RcText(text: string) | ReadError(message: string)

  /** What an injected block does to the handler: it finishes with a value, or it raises out of
      its own `except` handler. */
  datatype Enriched = Returned(value: Json) | Raised

  const Running := JStr("running")
  const Stale := JStr("stale")

  /** `int(rc_txt)` of the stripped rc text, with None when `int()` raises. */
  function RcValue(text: string): (r: Json)
    ensures r == JNull || r.JInt?
    ensures r.JInt? <==> PyInt(Strip(text)).Some?
  {
    match PyInt(Strip(text))
    case Some(n) => JInt(n)
    case None => JNull
  }

  /** `'success' if rc_val == 0 else 'failed'` */
  function StatusFor(rc: Json): (r: Json)
    ensures r == JStr("success") <==> rc == JInt(0)
    ensures r == JStr("success") || r == JStr("failed")
  {
    if rc == JInt(0) then JStr("success") else JStr("failed")
  }

  /** `isinstance(pid, int) and Path(f"/proc/{pid}").exists()`. A bool pid passes the isinstance
      test but /proc/True never exists, so only integers can be alive. */
  predicate PidAlive(pid: Json, alive: int -> bool) {
    pid.JInt? && alive(pid.i)
  }

  /** `d.setdefault('status_note', 'status_enrich_error: ' + message)` */
  function NoteError(d: Json, message: string): (r: Json)
    requires d.JDict?
    ensures r.JDict? && "status_note" in r.fields
    ensures "status_note" in d.fields ==> r == d
    ensures "status_note" !in d.fields ==> Get(r, "status_note") == JStr("status_enrich_error: " + message)
  {
    SetDefault(d, "status_note", JStr("status_enrich_error: " + message))
  }

  /** The keys the rc branch writes. */
  predicate RcKey(k: string) {
    k == "exit_code" || k == "rc" || k == "status" || k == "done"
  }

  /** The rc branch: `rc` (and `exit_code` when the variant writes it) become the parsed value,
      status follows it and `done` is set. Every other key keeps its value. */
  function ApplyRc(job: Json, rc: Json, withExitCode: bool): (r: Json)
    requires job.JDict?
    ensures r.JDict? && Get(r, "rc") == rc && Get(r, "status") == StatusFor(rc)
    ensures Get(r, "done") == JBool(true)
    ensures withExitCode ==> Get(r, "exit_code") == rc
    ensures !withExitCode ==> Get(r, "exit_code") == Get(job, "exit_code")
    ensures forall k :: k in job.fields ==> k in r.fields
    ensures forall k :: k in r.fields && !RcKey(k) ==> k in job.fields && r.fields[k] == job.fields[k]
  {
    var j := if withExitCode then Set(job, "exit_code", rc) else job;
    Set(Set(Set(j, "rc", rc), "status", StatusFor(rc)), "done", JBool(true))
  }

  /** The id `job_refresh` derives: `job.get('id') or job.get('job_id')`, then `str()` of it
      unless it is None. */
  function RefreshJobId(job: Json): string
    requires job.JDict?
  {
    var v := Or(Get(job, "id"), Get(job, "job_id"));
    if v == JNull then "" else PyStr(v)
  }

  /** The block harden-jobs-v2 injects before `return job` in `job_refresh`. Only ids that pass
      the whitelist have their rc file consulted; without an rc file only a 'running' job is
      re-examined, and it stays running only while its pid is alive. */
  function HardenRefresh(job: Json, rc: RcFile, alive: int -> bool): (r: Json)
    ensures !job.JDict? ==> r == job
    ensures job.JDict? && !ValidJobId(RefreshJobId(job)) ==> r == job
    ensures job.JDict? && ValidJobId(RefreshJobId(job)) && rc.RcText? ==>
      r == ApplyRc(job, RcValue(rc.text), true)
    ensures job.JDict? && rc.NoFile? && Get(job, "status") != Running ==> r == job
    ensures job.JDict? && ValidJobId(RefreshJobId(job)) && rc.NoFile? && Get(job, "status") == Running ==>
      r == Set(job, "status", if PidAlive(Get(job, "pid"), alive) then Running else Stale)
    ensures job.JDict? && ValidJobId(RefreshJobId(job)) && rc.ReadError? ==> r == NoteError(job, rc.message)
  {
    if !job.JDict? then job
    else if !ValidJobId(RefreshJobId(job)) then job
    else
      match rc
      case RcText(t) => ApplyRc(job, RcValue(t), true)
      case ReadError(msg) => NoteError(job, msg)
      case NoFile =>
        if Get(job, "status") == Running then
          Set(job, "status", if PidAlive(Get(job, "pid"), alive) then Running else Stale)
        else job
  }

  /** The block patch-api-job-rc-wins inserts after `job = job_refresh(job)` in `api_job`. The rc
      path comes from the route's `job_id`, so the file is consulted whatever the record holds.
      A live pid makes the job 'running' whatever its prior status; otherwise only 'running'
      becomes 'stale'. The handler calls `job.setdefault` without checking that `job` is a
      dictionary, so for any other value the error escapes. */
  function ApiJobEnrich(job: Json, rc: RcFile, alive: int -> bool): (r: Enriched)
    ensures !job.JDict? <==> r.Raised?
    ensures job.JDict? && rc.RcText? ==> r == Returned(ApplyRc(job, RcValue(rc.text), true))
    ensures job.JDict? && rc.ReadError? ==> r == Returned(NoteError(job, rc.message))
    ensures job.JDict? && rc.NoFile? && PidAlive(Get(job, "pid"), alive) ==>
      r == Returned(Set(job, "status", Running))
    ensures job.JDict? && rc.NoFile? && !PidAlive(Get(job, "pid"), alive) && Get(job, "status") == Running ==>
      r == Returned(Set(job, "status", Stale))
    ensures job.JDict? && rc.NoFile? && !PidAlive(Get(job, "pid"), alive) && Get(job, "status") != Running ==>
      r == Returned(job)
  {
    if !job.JDict? then Raised
    else
      match rc
      case RcText(t) => Returned(ApplyRc(job, RcValue(t), true))
      case ReadError(msg) => Returned(NoteError(job, msg))
      case NoFile =>
        if PidAlive(Get(job, "pid"), alive) then Returned(Set(job, "status", Running))
        else if Get(job, "status") == Running then Returned(Set(job, "status", Stale))
        else Returned(job)
  }

  /** The liveness rule shared by the route-level variants: a live pid gives 'running', otherwise
      'running' becomes 'stale' and every other status stays. */
  function RouteLiveness(j: Json, alive: int -> bool): (r: Json)
    requires j.JDict?
    ensures r.JDict? && r.fields.Keys == j.fields.Keys + (if r == j then {} else {"status"})
    ensures PidAlive(Get(j, "pid"), alive) ==> Get(r, "status") == Running
    ensures !PidAlive(Get(j, "pid"), alive) && Get(j, "status") == Running ==> Get(r, "status") == Stale
    ensures !PidAlive(Get(j, "pid"), alive) && Get(j, "status") != Running ==> r == j
    ensures forall k :: k in j.fields && k != "status" ==> r.fields[k] == j.fields[k]
  {
    if PidAlive(Get(j, "pid"), alive) then Set(j, "status", Running)
    else if Get(j, "status") == Running then Set(j, "status", Stale)
    else j
  }

  /** The snippet patch-job-status-rc-wins inserts before the handler's `return jsonify(var)`:
      the rc branch writes `rc`, `status` and `done` (not `exit_code`), and everything is skipped
      when `var` is not a dictionary. */
  function SnippetV1(v: Json, rc: RcFile, alive: int -> bool): (r: Json)
    ensures !v.JDict? ==> r == v
    ensures v.JDict? && rc.RcText? ==> r == ApplyRc(v, RcValue(rc.text), false)
    ensures v.JDict? && rc.NoFile? ==> r == RouteLiveness(v, alive)
    ensures v.JDict? && rc.ReadError? ==> r == NoteError(v, rc.message)
  {
    if !v.JDict? then v
    else
      match rc
      case RcText(t) => ApplyRc(v, RcValue(t), false)
      case ReadError(msg) => NoteError(v, msg)
      case NoFile => RouteLiveness(v, alive)
  }

  /** patch-job-status-rc-wins-v2: `resp` is the jsonify argument and the job is
      `resp.get('job')`; only a dictionary job is touched, the rc branch leaves `exit_code`
      alone, and a read error is noted on `resp`. */
  function EnrichV2(resp: Json, rc: RcFile, alive: int -> bool): (r: Json)
    ensures !resp.JDict? || !Get(resp, "job").JDict? ==> r == resp
    ensures resp.JDict? && Get(resp, "job").JDict? && rc.RcText? ==>
      r == Set(resp, "job", ApplyRc(Get(resp, "job"), RcValue(rc.text), false))
    ensures resp.JDict? && Get(resp, "job").JDict? && rc.NoFile? ==>
      r == Set(resp, "job", RouteLiveness(Get(resp, "job"), alive))
    ensures resp.JDict? && Get(resp, "job").JDict? && rc.ReadError? ==> r == NoteError(resp, rc.message)
  {
    if !resp.JDict? then resp
    else
      var j := Get(resp, "job");
      if !j.JDict? then resp
      else
        match rc
        case RcText(t) => Set(resp, "job", ApplyRc(j, RcValue(t), false))
        case ReadError(msg) => NoteError(resp, msg)
        case NoFile => Set(resp, "job", RouteLiveness(j, alive))
  }

  /** Which record v3 enriches: `resp['job']` when it is a dictionary, else `resp` itself when it
      carries both 'id' and 'status', else nothing. */
  datatype Target = InJob | WholeResponse | NoTarget

  function TargetOf(resp: Json): (t: Target)
    ensures t.InJob? ==> resp.JDict? && Get(resp, "job").JDict?
    ensures t.WholeResponse? <==>
      resp.JDict? && !Get(resp, "job").JDict? && "id" in resp.fields && "status" in resp.fields
  {
    if resp.JDict? && Get(resp, "job").JDict? then InJob
    else if resp.JDict? && "id" in resp.fields && "status" in resp.fields then WholeResponse
    else NoTarget
  }

  /** patch-job-status-rc-wins-v3: as v2, but the response itself can be the job, and the rc
      branch also writes `exit_code`. */
  function EnrichV3(resp: Json, rc: RcFile, alive: int -> bool): (r: Json)
    ensures TargetOf(resp).NoTarget? ==> r == resp
    ensures TargetOf(resp).InJob? && rc.RcText? ==>
      r == Set(resp, "job", ApplyRc(Get(resp, "job"), RcValue(rc.text), true))
    ensures TargetOf(resp).WholeResponse? && rc.RcText? ==> r == ApplyRc(resp, RcValue(rc.text), true)
    ensures TargetOf(resp).InJob? && rc.NoFile? ==> r == Set(resp, "job", RouteLiveness(Get(resp, "job"), alive))
    ensures TargetOf(resp).WholeResponse? && rc.NoFile? ==> r == RouteLiveness(resp, alive)
    ensures !TargetOf(resp).NoTarget? && rc.ReadError? ==> r == NoteError(resp, rc.message)
  {
    match TargetOf(resp)
    case NoTarget => resp
    case InJob =>
      (match rc
       case RcText(t) => Set(resp, "job", ApplyRc(Get(resp, "job"), RcValue(t), true))
       case ReadError(msg) => NoteError(resp, msg)
       case NoFile => Set(resp, "job", RouteLiveness(Get(resp, "job"), alive)))
    case WholeResponse =>
      (match rc
       case RcText(t) => ApplyRc(resp, RcValue(t), true)
       case ReadError(msg) => NoteError(resp, msg)
       case NoFile => RouteLiveness(resp, alive))
  }

  /** `int(rc_txt or "1")` with any exception read as 1: an empty file counts as a failure. */
  function OverrideRcValue(text: string): (r: int)
    ensures Strip(text) == "" ==> r == 1
    ensures Strip(text) != "" && PyInt(Strip(text)).Some? ==> r == PyInt(Strip(text)).value
  {
    var t := Strip(text);
    if t == "" then 1
    else match PyInt(t) case Some(n) => n case None => 1
  }

  /** The override patch-os-search-and-job-rc puts at the top of `job_refresh`. The rc path is the
      record's own `rc_path` (None when the record is not a dictionary); when it is set and the
      probe finds the file, rc wins: a read error counts as rc 1, the pid is dropped and
      `updated_at` becomes `now`. */
  function RcOverride(job: Json, rc: RcFile, now: Json): (r: Json)
    ensures !job.JDict? || !Truthy(Get(job, "rc_path")) || rc.NoFile? ==> r == job
    ensures job.JDict? && Truthy(Get(job, "rc_path")) && !rc.NoFile? ==>
      && r.JDict?
      && Get(r, "rc") == JInt(if rc.RcText? then OverrideRcValue(rc.text) else 1)
      && Get(r, "status") == StatusFor(Get(r, "rc"))
      && Get(r, "pid_alive") == JBool(false) && Get(r, "pid") == JNull
      && Get(r, "updated_at") == now
      && r.fields.Keys == job.fields.Keys + OverrideKeys
      && forall k :: k in job.fields && k !in OverrideKeys ==> r.fields[k] == job.fields[k]
  {
    if !job.JDict? then job
    else if !Truthy(Get(job, "rc_path")) then job
    else
      match rc
      case NoFile => job
      case RcText(t) => Overridden(job, OverrideRcValue(t), now)
      case ReadError(_) => Overridden(job, 1, now)
  }

  /** The keys the override assigns. */
  const OverrideKeys: set<string> := {"rc", "pid_alive", "status", "updated_at", "pid"}

  /** The assignments of the override, in the order the injected code makes them. */
  function Overridden(job: Json, n: int, now: Json): (r: Json)
    requires job.JDict?
    ensures r.JDict? && Get(r, "rc") == JInt(n) && Get(r, "status") == StatusFor(JInt(n))
    ensures Get(r, "pid_alive") == JBool(false) && Get(r, "pid") == JNull && Get(r, "updated_at") == now
    ensures r.fields.Keys == job.fields.Keys + OverrideKeys
    ensures forall k :: k in job.fields && k !in OverrideKeys ==> r.fields[k] == job.fields[k]
  {
        var j1 := Set(job, "rc", JInt(n));
        var j2 := Set(j1, "pid_alive", JBool(false));
        var j3 := Set(j2, "status", if n == 0 then JStr("success") else JStr("failed"));
        var j4 := Set(j3, "updated_at", now);
        Set(j4, "pid", JNull)
  }

  /** The rc text a job's exit code is written as reads back as that code. */
  lemma RcValueOfCode(code: int)
    ensures RcValue(IntToString(code)) == JInt(code)
    ensures OverrideRcValue(IntToString(code)) == code
  {
    PyIntRoundTrip(code);
    assert RcValue(IntToString(code)) == JInt(code);
  }

  /** A worker that writes `str(code)` to its rc file has that code recorded by every variant,
      with status 'success' exactly when it is 0. */
  lemma ExitCodeRoundTrip(job: Json, code: int, alive: int -> bool)
    requires job.JDict? && ValidJobId(RefreshJobId(job))
    ensures Get(HardenRefresh(job, RcText(IntToString(code)), alive), "rc") == JInt(code)
    ensures Get(HardenRefresh(job, RcText(IntToString(code)), alive), "exit_code") == JInt(code)
    ensures Get(HardenRefresh(job, RcText(IntToString(code)), alive), "status") == JStr("success") <==> code == 0
    ensures Get(ApiJobEnrich(job, RcText(IntToString(code)), alive).value, "rc") == JInt(code)
    ensures Get(SnippetV1(job, RcText(IntToString(code)), alive), "rc") == JInt(code)
    ensures OverrideRcValue(IntToString(code)) == code
  {
    RcValueOfCode(code);
  }

  /** An unparseable rc file: `job_refresh` as hardened records None (and so 'failed'), while the
      override of patch-os-search-and-job-rc records 1. The two injected blocks disagree. */
  lemma UnparseableRcDisagrees(job: Json, text: string, alive: int -> bool, now: Json)
    requires job.JDict? && ValidJobId(RefreshJobId(job)) && Truthy(Get(job, "rc_path"))
    requires PyInt(Strip(text)).None?
    ensures Get(HardenRefresh(job, RcText(text), alive), "rc") == JNull
    ensures Get(RcOverride(job, RcText(text), now), "rc") == JInt(1)
    ensures Get(HardenRefresh(job, RcText(text), alive), "status") == JStr("failed")
    ensures Get(RcOverride(job, RcText(text), now), "status") == JStr("failed")
  {
  }

  /** An empty rc file reads as None in `job_refresh` and as 1 in the override. */
  lemma EmptyRcIsNotAnExitCode()
    ensures RcValue("") == JNull && RcValue(" \n") == JNull
    ensures OverrideRcValue("") == 1 && OverrideRcValue(" \n") == 1
  {
    assert Strip("") == "";
    assert IsBlank(" \n") by { BlankIffAllSpace(" \n"); }
  }

  /** With an rc file present, no variant looks at the pid or the prior status. */
  lemma RcWinsOverPid(job: Json, t: string, alive1: int -> bool, alive2: int -> bool)
    requires job.JDict?
    ensures HardenRefresh(job, RcText(t), alive1) == HardenRefresh(job, RcText(t), alive2)
    ensures ApiJobEnrich(job, RcText(t), alive1) == ApiJobEnrich(job, RcText(t), alive2)
    ensures SnippetV1(job, RcText(t), alive1) == SnippetV1(job, RcText(t), alive2)
    ensures EnrichV2(job, RcText(t), alive1) == EnrichV2(job, RcText(t), alive2)
    ensures EnrichV3(job, RcText(t), alive1) == EnrichV3(job, RcText(t), alive2)
  {
    RcWinsOverPidHarden(job, t, alive1, alive2);
    RcWinsOverPidEnrich(job, t, alive1, alive2);
  }

  lemma RcWinsOverPidHarden(job: Json, t: string, alive1: int -> bool, alive2: int -> bool)
    requires job.JDict?
    ensures HardenRefresh(job, RcText(t), alive1) == HardenRefresh(job, RcText(t), alive2)
    ensures ApiJobEnrich(job, RcText(t), alive1) == ApiJobEnrich(job, RcText(t), alive2)
    ensures SnippetV1(job, RcText(t), alive1) == SnippetV1(job, RcText(t), alive2)
  {
  }

  lemma RcWinsOverPidEnrich(job: Json, t: string, alive1: int -> bool, alive2: int -> bool)
    requires job.JDict?
    ensures EnrichV2(job, RcText(t), alive1) == EnrichV2(job, RcText(t), alive2)
    ensures EnrichV3(job, RcText(t), alive1) == EnrichV3(job, RcText(t), alive2)
  {
  }

  /** Without an rc file, `job_refresh` as hardened never changes a finished job, whereas the
      `api_job` block turns it back to 'running' when its pid is (again) alive, for instance
      after pid reuse. */
  lemma LivePidRevivesOnlyInApiJob(job: Json, alive: int -> bool)
    requires job.JDict? && Get(job, "status") == JStr("failed") && PidAlive(Get(job, "pid"), alive)
    ensures HardenRefresh(job, NoFile, alive) == job
    ensures ApiJobEnrich(job, NoFile, alive) == Returned(Set(job, "status", Running))
  {
  }

  lemma {:induction false} ApplyRcTwice(job: Json, rc: Json, withExitCode: bool)
    requires job.JDict?
    ensures ApplyRc(ApplyRc(job, rc, withExitCode), rc, withExitCode) == ApplyRc(job, rc, withExitCode)
  {
    var once := ApplyRc(job, rc, withExitCode);
    var j := if withExitCode then Set(once, "exit_code", rc) else once;
    if withExitCode {
      SetUnchanged(once, "exit_code", rc);
    }
    SetUnchanged(j, "rc", rc);
    SetUnchanged(j, "status", StatusFor(rc));
    SetUnchanged(j, "done", JBool(true));
  }

  lemma SameIdKeys(job: Json, r: Json)
    requires job.JDict? && r.JDict?
    requires Get(r, "id") == Get(job, "id") && Get(r, "job_id") == Get(job, "job_id")
    ensures RefreshJobId(r) == RefreshJobId(job)
  {
  }

  lemma HardenRcTwice(job: Json, t: string, alive: int -> bool)
    requires job.JDict? && ValidJobId(RefreshJobId(job))
    ensures HardenRefresh(HardenRefresh(job, RcText(t), alive), RcText(t), alive) == HardenRefresh(job, RcText(t), alive)
  {
    var once := ApplyRc(job, RcValue(t), true);
    ApplyRcKeepsId(job, RcValue(t), true);
    assert HardenRefresh(once, RcText(t), alive) == ApplyRc(once, RcValue(t), true);
    ApplyRcTwice(job, RcValue(t), true);
  }

  /** The rc branch leaves `id` and `job_id`, hence the derived job id, as they were. */
  lemma ApplyRcKeepsId(job: Json, rc: Json, withExitCode: bool)
    requires job.JDict?
    ensures RefreshJobId(ApplyRc(job, rc, withExitCode)) == RefreshJobId(job)
  {
    var r := ApplyRc(job, rc, withExitCode);
    assert !RcKey("id") && !RcKey("job_id");
    assert Get(r, "id") == Get(job, "id");
    assert Get(r, "job_id") == Get(job, "job_id");
    SameIdKeys(job, r);
  }

  lemma HardenNoteTwice(job: Json, msg: string, alive: int -> bool)
    requires job.JDict? && ValidJobId(RefreshJobId(job))
    ensures HardenRefresh(HardenRefresh(job, ReadError(msg), alive), ReadError(msg), alive) == HardenRefresh(job, ReadError(msg), alive)
  {
    var once := NoteError(job, msg);
    SameIdKeys(job, once);
  }

  lemma HardenLivenessTwice(job: Json, alive: int -> bool)
    requires job.JDict? && ValidJobId(RefreshJobId(job)) && Get(job, "status") == Running
    ensures HardenRefresh(HardenRefresh(job, NoFile, alive), NoFile, alive) == HardenRefresh(job, NoFile, alive)
  {
    var once := Set(job, "status", if PidAlive(Get(job, "pid"), alive) then Running else Stale);
    SameIdKeys(job, once);
    if PidAlive(Get(job, "pid"), alive) {
      assert once.fields["status" := Running] == once.fields;
    }
  }

  /** Running the hardened `job_refresh` again on its own result changes nothing: the enrichment
      is idempotent. */
  lemma {:induction false} HardenRefreshIdempotent(job: Json, rc: RcFile, alive: int -> bool)
    ensures HardenRefresh(HardenRefresh(job, rc, alive), rc, alive) == HardenRefresh(job, rc, alive)
  {
    if job.JDict? && ValidJobId(RefreshJobId(job)) {
      match rc {
        case RcText(t) => HardenRcTwice(job, t, alive);
        case ReadError(msg) => HardenNoteTwice(job, msg, alive);
        case NoFile =>
          if Get(job, "status") == Running {
            HardenLivenessTwice(job, alive);
          }
      }
    }
  }

  /** The liveness rule of the route-level variants is idempotent. */
  lemma {:induction false} RouteLivenessIdempotent(j: Json, alive: int -> bool)
    requires j.JDict?
    ensures RouteLiveness(RouteLiveness(j, alive), alive) == RouteLiveness(j, alive)
  {
    var once := RouteLiveness(j, alive);
    assert Get(once, "pid") == Get(j, "pid");
    if PidAlive(Get(j, "pid"), alive) {
      assert once.fields["status" := Running] == once.fields;
    }
  }
}
