/**
 * The NAS-to-SharePoint migration tool (cmd/sharepoint/main.go): its
 * configuration, the scan that turns a directory walk into upload jobs, the
 * per-file retry, and the worker's outcome statistics. The environment is a
 * map; each upload attempt's outcome comes from an oracle.
 */
module Migrate {
  import opened Wrappers
  import opened Text
  import opened Paths

  // ---------------------------------------------------------------------------
  // Configuration
  // ---------------------------------------------------------------------------

  datatype Config = Config(
    sourcePath: string,
    spRoot: string,
    worker: int,
    clientId: string,
    clientSecret: string,
    tenantId: string,
    siteId: string,
    driveId: string)

  /** `os.Getenv`: "" for an unset variable. */
  function Getenv(env: map<string, string>, key: string): string
  {
    if key in env then env[key] else ""
  }

  /** `fmt.Sscanf(w, "%d", &worker)`: the scanned integer, or `worker` unchanged when the scan fails. */
  function ScanWorker(w: string, worker: int): int
  {
    match ScanInt(w)
    case Some((v, _)) => v
    case None => worker
  }

  /**
   * `loadConfig`: NAS_PATH (default "./data"), SP_ROOT (default
   * "Documents/Migration"), WORKER when set (otherwise the CPU count), and
   * the five credentials as they are.
   */
  function LoadConfig(env: map<string, string>, numCpu: int): (c: Config)
    ensures c.sourcePath != "" && c.spRoot != ""
    ensures Getenv(env, "NAS_PATH") != "" ==> c.sourcePath == Getenv(env, "NAS_PATH")
    ensures Getenv(env, "NAS_PATH") == "" ==> c.sourcePath == "./data"
    ensures Getenv(env, "SP_ROOT") != "" ==> c.spRoot == Getenv(env, "SP_ROOT")
    ensures Getenv(env, "SP_ROOT") == "" ==> c.spRoot == "Documents/Migration"
    ensures Getenv(env, "WORKER") == "" ==> c.worker == numCpu
    ensures c.clientId == Getenv(env, "MS_CLIENT_ID") && c.clientSecret == Getenv(env, "MS_CLIENT_SECRET")
    ensures c.tenantId == Getenv(env, "MS_TENANT_ID")
    ensures c.siteId == Getenv(env, "MS_SITE_ID") && c.driveId == Getenv(env, "MS_DRIVE_ID")
  {
    var src := Getenv(env, "NAS_PATH");
    var sp := Getenv(env, "SP_ROOT");
    var w := Getenv(env, "WORKER");
    Config(
      if src == "" then "./data" else src,
      if sp == "" then "Documents/Migration" else sp,
      if w != "" then ScanWorker(w, numCpu) else numCpu,
      Getenv(env, "MS_CLIENT_ID"),
      Getenv(env, "MS_CLIENT_SECRET"),
      Getenv(env, "MS_TENANT_ID"),
      Getenv(env, "MS_SITE_ID"),
      Getenv(env, "MS_DRIVE_ID"))
  }

  /**
   * WORKER set to a decimal number, after any blanks, gives that many workers;
   * set to anything unscannable it changes nothing.
   */
  lemma LoadConfigWorker(env: map<string, string>, numCpu: int, n: int, blanks: string)
    requires forall i :: 0 <= i < |blanks| ==> ScanBlank(blanks[i])
    ensures Getenv(env, "WORKER") == IntText(n) ==> LoadConfig(env, numCpu).worker == n
    ensures Getenv(env, "WORKER") == blanks + IntText(n) ==> LoadConfig(env, numCpu).worker == n
    ensures Getenv(env, "WORKER") != "" && ScanInt(Getenv(env, "WORKER")).None? ==> LoadConfig(env, numCpu).worker == numCpu
  {
    ScanIntText(n, "");
    assert IntText(n) + "" == IntText(n);
    ScanIntSkipsBlanks(blanks, IntText(n));
  }

  predicate CredentialsComplete(c: Config)
  {
    c.clientId != "" && c.clientSecret != "" && c.tenantId != "" && c.siteId != "" && c.driveId != ""
  }

  /**
   * `LoadConfigFromEnv`: the configuration it stores (credentials only) and
   * its error, which is reported exactly when a credential is missing.
   */
  function LoadConfigFromEnv(env: map<string, string>): (r: (Config, Option<string>))
    ensures r.1.None? <==> CredentialsComplete(r.0)
    ensures r.0.clientId == Getenv(env, "MS_CLIENT_ID") && r.0.clientSecret == Getenv(env, "MS_CLIENT_SECRET")
    ensures r.0.tenantId == Getenv(env, "MS_TENANT_ID") && r.0.siteId == Getenv(env, "MS_SITE_ID")
    ensures r.0.driveId == Getenv(env, "MS_DRIVE_ID")
    ensures r.0.sourcePath == "" && r.0.spRoot == "" && r.0.worker == 0
  {
    var c := Config("", "", 0,
      Getenv(env, "MS_CLIENT_ID"),
      Getenv(env, "MS_CLIENT_SECRET"),
      Getenv(env, "MS_TENANT_ID"),
      Getenv(env, "MS_SITE_ID"),
      Getenv(env, "MS_DRIVE_ID"));
    if c.clientId == "" || c.clientSecret == "" || c.tenantId == "" || c.siteId == "" || c.driveId == ""
    then (c, Some("sharepoint env config not complete"))
    else (c, None)
  }

  // ---------------------------------------------------------------------------
  // scanFiles
  // ---------------------------------------------------------------------------

  /**
   * One visit of `filepath.WalkDir`: the path, its path relative to the root
   * (what `filepath.Rel` returns), an access error, whether it is a directory,
   * and its size (None when `Info` fails).
   */
  datatype DirEntry = DirEntry(path: string, rel: string, accessError: bool, isDir: bool, size: Option<nat>)

  /** `FileJob`: the local file and its SharePoint destination. */
  datatype FileJob = FileJob(localPath: string, spPath: string)

  /** A walk entry that becomes a job: reachable, not a directory, with a size above zero. */
  predicate Uploadable(e: DirEntry)
  {
    !e.accessError && !e.isDir && e.size.Some? && e.size.value > 0
  }

  function JobPrefix(spRoot: string, timestamp: string): string
  {
    spRoot + "/" + timestamp + "/"
  }

  /** `SPRoot/timestamp/rel`, with `rel` in '/' form. */
  function SharePointPathFor(spRoot: string, timestamp: string, rel: string, sep: char): (p: string)
    ensures HasPrefix(p, JobPrefix(spRoot, timestamp))
    ensures TrimPrefix(p, JobPrefix(spRoot, timestamp)) == ToSlash(rel, sep)
  {
    var prefix := JobPrefix(spRoot, timestamp);
    var p := prefix + ToSlash(rel, sep);
    assert p[..|prefix|] == prefix;
    p
  }

  function JobOf(e: DirEntry, spRoot: string, timestamp: string, sep: char): FileJob
  {
    FileJob(e.path, SharePointPathFor(spRoot, timestamp, e.rel, sep))
  }

  /** The jobs a walk produces, in walk order. */
  function ScannedJobs(entries: seq<DirEntry>, spRoot: string, timestamp: string, sep: char): seq<FileJob>
  {
    if |entries| == 0 then []
    else
      var last := entries[|entries| - 1];
      ScannedJobs(entries[..|entries| - 1], spRoot, timestamp, sep)
        + (if Uploadable(last) then [JobOf(last, spRoot, timestamp, sep)] else [])
  }

  function CountUploadable(entries: seq<DirEntry>): nat
  {
    if |entries| == 0 then 0
    else CountUploadable(entries[..|entries| - 1]) + (if Uploadable(entries[|entries| - 1]) then 1 else 0)
  }

  /** The scan makes exactly as many jobs as there are uploadable entries. */
  lemma {:induction false} ScannedJobsCount(entries: seq<DirEntry>, spRoot: string, timestamp: string, sep: char)
    ensures |ScannedJobs(entries, spRoot, timestamp, sep)| == CountUploadable(entries) <= |entries|
  {
    if |entries| > 0 {
      ScannedJobsCount(entries[..|entries| - 1], spRoot, timestamp, sep);
    }
  }

  /** Every job is the job of some uploadable entry: nothing else is scheduled. */
  lemma {:induction false} ScannedJobsSound(entries: seq<DirEntry>, spRoot: string, timestamp: string, sep: char, k: nat)
    requires k < |ScannedJobs(entries, spRoot, timestamp, sep)|
    ensures exists i :: 0 <= i < |entries| && Uploadable(entries[i])
                        && ScannedJobs(entries, spRoot, timestamp, sep)[k] == JobOf(entries[i], spRoot, timestamp, sep)
  {
    var last := |entries| - 1;
    var init := entries[..last];
    var js := ScannedJobs(entries, spRoot, timestamp, sep);
    var ji := ScannedJobs(init, spRoot, timestamp, sep);
    assert js == ji + (if Uploadable(entries[last]) then [JobOf(entries[last], spRoot, timestamp, sep)] else []);
    if k < |ji| {
      ScannedJobsSound(init, spRoot, timestamp, sep, k);
      var i :| 0 <= i < |init| && Uploadable(init[i]) && ji[k] == JobOf(init[i], spRoot, timestamp, sep);
      assert js[k] == ji[k] && entries[i] == init[i];
    } else {
      assert Uploadable(entries[last]) && js[k] == JobOf(entries[last], spRoot, timestamp, sep);
    }
  }

  /** `scanFiles`: walk the entries and push a job for each uploadable file. */
  method ScanFiles(cfg: Config, entries: seq<DirEntry>, timestamp: string, sep: char) returns (jobs: seq<FileJob>)
    ensures jobs == ScannedJobs(entries, cfg.spRoot, timestamp, sep)
  {
    jobs := [];
    var i := 0;
    while i < |entries|
      invariant 0 <= i <= |entries|
      invariant jobs == ScannedJobs(entries[..i], cfg.spRoot, timestamp, sep)
    {
      assert entries[..i + 1][..i] == entries[..i];
      var e := entries[i];
      if e.accessError {
      } else if e.isDir {
      } else if e.size.None? {
      } else if e.size.value == 0 {
      } else {
        jobs := jobs + [FileJob(e.path, SharePointPathFor(cfg.spRoot, timestamp, e.rel, sep))];
      }
      i := i + 1;
    }
    assert entries[..i] == entries;
  }

  // ---------------------------------------------------------------------------
  // uploadWithRetry
  // ---------------------------------------------------------------------------

  /** An attempt outcome that ends the retry loop: success, or an error whose text contains "409". */
  predicate Stops(o: Option<string>)
  {
    o.None? || Contains(o.value, "409")
  }

  /** The first attempt at or after `i`, below `maxRetry`, that ends the loop. */
  function FirstStop(attempt: nat -> Option<string>, i: nat, maxRetry: int): (r: Option<nat>)
    ensures r.Some? ==> i <= r.value < maxRetry && Stops(attempt(r.value))
    ensures r.Some? ==> forall k :: i <= k < r.value ==> !Stops(attempt(k))
    ensures r.None? ==> forall k :: i <= k < maxRetry ==> !Stops(attempt(k))
    decreases maxRetry - i
  {
    if i >= maxRetry then None
    else if Stops(attempt(i)) then Some(i)
    else FirstStop(attempt, i + 1, maxRetry)
  }

  /**
   * What `uploadWithRetry` returns: the outcome of the first stopping attempt;
   * otherwise the last attempt's error; nil when no attempt is made.
   */
  function RetryResult(maxRetry: int, attempt: nat -> Option<string>): Option<string>
  {
    match FirstStop(attempt, 0, maxRetry)
    case Some(i) => attempt(i)
    case None => if maxRetry > 0 then attempt(maxRetry - 1) else None
  }

  /** The result is nil exactly when an attempt succeeded before any "409", or no attempt was allowed. */
  lemma RetryResultSuccess(maxRetry: int, attempt: nat -> Option<string>)
    ensures RetryResult(maxRetry, attempt).None? <==>
              maxRetry <= 0 || (exists i :: 0 <= i < maxRetry && attempt(i).None? && forall k :: 0 <= k < i ==> !Stops(attempt(k)))
  {
    var fs := FirstStop(attempt, 0, maxRetry);
    if maxRetry > 0 && fs.None? {
      assert !Stops(attempt(maxRetry - 1));
    }
    if fs.Some? {
      var j := fs.value;
      if exists i :: 0 <= i < maxRetry && attempt(i).None? && forall k :: 0 <= k < i ==> !Stops(attempt(k)) {
        var i :| 0 <= i < maxRetry && attempt(i).None? && forall k :: 0 <= k < i ==> !Stops(attempt(k));
        assert Stops(attempt(i)) && Stops(attempt(j));
        assert i == j;
      }
    }
  }

  /**
   * `uploadWithRetry(job, maxRetry)`: at most `maxRetry` calls; return at once
   * on success or on a "409" error; otherwise wait `(i + 1) * 2` seconds after
   * failed attempt `i` and try again; after the last attempt return its error.
   */
  method UploadWithRetry(maxRetry: int, attempt: nat -> Option<string>)
    returns (err: Option<string>, calls: nat, waits: seq<nat>)
    ensures err == RetryResult(maxRetry, attempt)
    ensures FirstStop(attempt, 0, maxRetry).Some? ==>
              calls == FirstStop(attempt, 0, maxRetry).value + 1 && |waits| == calls - 1
    ensures FirstStop(attempt, 0, maxRetry).None? ==>
              calls == (if maxRetry > 0 then maxRetry else 0) && |waits| == calls
    ensures forall k :: 0 <= k < |waits| ==> waits[k] == (k + 1) * 2
  {
    err, calls, waits := None, 0, [];
    var i := 0;
    while i < maxRetry
      invariant 0 <= i && (maxRetry > 0 ==> i <= maxRetry) && (maxRetry <= 0 ==> i == 0)
      invariant calls == i && |waits| == i
      invariant forall k :: 0 <= k < i ==> waits[k] == (k + 1) * 2 && !Stops(attempt(k))
      invariant FirstStop(attempt, 0, maxRetry) == FirstStop(attempt, i, maxRetry)
      invariant i > 0 ==> err == attempt(i - 1)
      invariant i == 0 ==> err.None?
    {
      err := attempt(i);
      calls := calls + 1;
      if err.None? {
        assert Stops(attempt(i)) && FirstStop(attempt, i, maxRetry) == Some(i);
        assert err == RetryResult(maxRetry, attempt);
        return;
      }
      if Contains(err.value, "409") {
        assert Stops(attempt(i)) && FirstStop(attempt, i, maxRetry) == Some(i);
        assert err == RetryResult(maxRetry, attempt);
        return;
      }
      waits := waits + [(i + 1) * 2];
      i := i + 1;
    }
    assert FirstStop(attempt, 0, maxRetry).None?;
    assert RetryResult(maxRetry, attempt) == (if maxRetry > 0 then attempt(maxRetry - 1) else None);
    if maxRetry > 0 {
      assert i == maxRetry && err == attempt(maxRetry - 1);
    }
    assert err == RetryResult(maxRetry, attempt);
  }

  // ---------------------------------------------------------------------------
  // worker and Stats
  // ---------------------------------------------------------------------------

  /** An error that means the file is already there. */
  predicate IsConflict(err: string)
  {
    Contains(err, "409")
  }

  /** The final results of `uploadWithRetry(job, 3)` for each job, with `attempts(j)` the oracle of job `j`. */
  function JobResults(n: nat, attempts: nat -> (nat -> Option<string>)): (rs: seq<Option<string>>)
    ensures |rs| == n
    ensures forall j :: 0 <= j < n ==> rs[j] == RetryResult(3, attempts(j))
  {
    seq(n, j requires 0 <= j < n => RetryResult(3, attempts(j)))
  }

  function CountSucceeded(rs: seq<Option<string>>): nat
  {
    if |rs| == 0 then 0 else CountSucceeded(rs[..|rs| - 1]) + (if rs[|rs| - 1].None? then 1 else 0)
  }

  function CountConflicts(rs: seq<Option<string>>): nat
  {
    if |rs| == 0 then 0
    else CountConflicts(rs[..|rs| - 1]) + (if rs[|rs| - 1].Some? && IsConflict(rs[|rs| - 1].value) then 1 else 0)
  }

  /** The local paths of the jobs whose result is an error other than a conflict, in job order. */
  function FailedPaths(jobs: seq<FileJob>, rs: seq<Option<string>>): seq<string>
    requires |jobs| == |rs|
  {
    if |rs| == 0 then []
    else
      var n := |rs| - 1;
      FailedPaths(jobs[..n], rs[..n]) + (if rs[n].Some? && !IsConflict(rs[n].value) then [jobs[n].localPath] else [])
  }

  /** Every job is counted exactly once: as a success, as already existing, or as a failure. */
  lemma {:induction false} OutcomesPartition(jobs: seq<FileJob>, rs: seq<Option<string>>)
    requires |jobs| == |rs|
    ensures CountSucceeded(rs) + CountConflicts(rs) + |FailedPaths(jobs, rs)| == |rs|
  {
    if |rs| > 0 {
      OutcomesPartition(jobs[..|rs| - 1], rs[..|rs| - 1]);
    }
  }

  /** How the counts over the first `i + 1` results extend those over the first `i`. */
  lemma CountsSnoc(jobs: seq<FileJob>, rs: seq<Option<string>>, i: nat)
    requires i < |jobs| == |rs|
    ensures CountSucceeded(rs[..i + 1]) == CountSucceeded(rs[..i]) + (if rs[i].None? then 1 else 0)
    ensures CountConflicts(rs[..i + 1]) == CountConflicts(rs[..i]) + (if rs[i].Some? && IsConflict(rs[i].value) then 1 else 0)
    ensures FailedPaths(jobs[..i + 1], rs[..i + 1])
            == FailedPaths(jobs[..i], rs[..i]) + (if rs[i].Some? && !IsConflict(rs[i].value) then [jobs[i].localPath] else [])
  {
    assert rs[..i + 1][..i] == rs[..i];
    assert jobs[..i + 1][..i] == jobs[..i];
  }

  /** `Stats`: the counters the workers share, and the paths that failed. */
  class Stats {
    var success: int
    var failed: int
    var existing: int
    var failedList: seq<string>

    /** The failure counter and the failure list grow together. */
    predicate Valid()
      reads this
    {
      0 <= success && 0 <= failed && 0 <= existing && failed == |failedList|
    }

    constructor()
      ensures Valid() && success == 0 && failed == 0 && existing == 0 && failedList == []
    {
      success, failed, existing, failedList := 0, 0, 0, [];
    }

    /** Count one job's final result: nil is a success, a "409" error an existing file, anything else a failure. */
    method Record(job: FileJob, err: Option<string>)
      requires Valid()
      modifies this
      ensures Valid()
      ensures success == old(success) + (if err.None? then 1 else 0)
      ensures existing == old(existing) + (if err.Some? && IsConflict(err.value) then 1 else 0)
      ensures failed == old(failed) + (if err.Some? && !IsConflict(err.value) then 1 else 0)
      ensures failedList == old(failedList) + (if err.Some? && !IsConflict(err.value) then [job.localPath] else [])
    {
      if err.Some? {
        if IsConflict(err.value) {
          existing := existing + 1;
        } else {
          failed := failed + 1;
          failedList := failedList + [job.localPath];
        }
      } else {
        success := success + 1;
      }
    }
  }

  /**
   * `worker`, run over the whole job list in order: upload each job with
   * `uploadWithRetry(job, 3)` and record its result once.
   */
  method Worker(stats: Stats, jobs: seq<FileJob>, attempts: nat -> (nat -> Option<string>))
    requires stats.Valid()
    modifies stats
    ensures stats.Valid()
    ensures var rs := JobResults(|jobs|, attempts);
            stats.success == old(stats.success) + CountSucceeded(rs)
            && stats.existing == old(stats.existing) + CountConflicts(rs)
            && stats.failed == old(stats.failed) + |FailedPaths(jobs, rs)|
            && stats.failedList == old(stats.failedList) + FailedPaths(jobs, rs)
  {
    var rs := JobResults(|jobs|, attempts);
    var i := 0;
    while i < |jobs|
      invariant 0 <= i <= |jobs|
      invariant stats.Valid()
      invariant stats.success == old(stats.success) + CountSucceeded(rs[..i])
      invariant stats.existing == old(stats.existing) + CountConflicts(rs[..i])
      invariant stats.failedList == old(stats.failedList) + FailedPaths(jobs[..i], rs[..i])
      invariant stats.failed == old(stats.failed) + |FailedPaths(jobs[..i], rs[..i])|
    {
      var err, calls, waits := UploadWithRetry(3, attempts(i));
      CountsSnoc(jobs, rs, i);
      stats.Record(jobs[i], err);
      i := i + 1;
    }
    assert rs[..i] == rs;
    assert jobs[..i] == jobs;
  }

  /** After the workers have run from fresh statistics, every job appears in exactly one counter. */
  lemma WorkerTotals(jobs: seq<FileJob>, attempts: nat -> (nat -> Option<string>))
    ensures var rs := JobResults(|jobs|, attempts);
            CountSucceeded(rs) + CountConflicts(rs) + |FailedPaths(jobs, rs)| == |jobs|
  {
    OutcomesPartition(jobs, JobResults(|jobs|, attempts));
  }
}
