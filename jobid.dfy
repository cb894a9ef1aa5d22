// The job-id whitelist `[A-Za-z0-9_-]+` that guards every place where a job id becomes part of a
// file name under cache/jobs/.
module JobId {
  import opened Common
  import opened Text
  import opened PyValue

  predicate IsJobIdChar(c: char) {
    IsAsciiLetter(c) || IsDigit(c) || c == '_' || c == '-'
  }

  /** `re.fullmatch(r"[A-Za-z0-9_-]+", s)` */
  predicate ValidJobId(s: string) {
    s != [] && forall i :: 0 <= i < |s| ==> IsJobIdChar(s[i])
  }

  /** A whitelisted id names a single file inside cache/jobs: no separator, no parent step,
      no NUL byte. */
  lemma ValidJobIdStaysInDirectory(s: string)
    requires ValidJobId(s)
    ensures '/' !in s && '\0' !in s && s != "." && s != ".."
  {
    assert !IsJobIdChar('/') && !IsJobIdChar('\0') && !IsJobIdChar('.');
    assert s[0] != '.';
  }

  /** An HTTP reply: status code and JSON body. */
  datatype Reply = Reply(status: int, body: Json)

  /** The guard injected at the top of `api_job`: `job_id or ""` must pass the whitelist,
      otherwise the handler returns 400 with `{"ok": False, "error": "invalid job_id"}`
      before doing anything else. */
  function ApiJobGuard(jobId: string): (r: Option<Reply>)
    ensures r.None? <==> ValidJobId(jobId)
    ensures r.Some? ==> r.value.status == 400 && r.value.body.JDict?
    ensures r.Some? ==> Get(r.value.body, "error") == JStr("invalid job_id")
    ensures r.Some? ==> Get(r.value.body, "ok") == JBool(false)
  {
    if ValidJobId(jobId) then None
    else Some(Reply(400, JDict(map["ok" := JBool(false), "error" := JStr("invalid job_id")])))
  }
}
