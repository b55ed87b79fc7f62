/**
 * The audit life-cycle of api.py: run_audit_single moves a target from
 * pending through running to completed or failed and publishes it in the
 * result store; run_audit_batch runs every target of a targets file and
 * summarises; get_audit_results reads one stored audit back.
 *
 * The Ansible engine is a parameter: what a run produced (its final status
 * and its event stream) or the error it raised. The file system is reduced to
 * the set of playbook files that exist; clocks and uuids are parameters.
 */
module Runner {
  import opened Wrappers
  import opened Text
  import opened Audit
  import opened EventParser

  /** What the engine call (and the preparation around it) came to. */
  datatype EngineOutcome =
    | Raised(error: string)
    | Finished(status: string, events: seq<Event>)

  /** The playbook for a target: one for windows, one per level otherwise. */
  function PlaybookFilename(os: string, level: string): string {
    if Lower(os) == "windows" then "cis_audit_windows.yml" else "cis_audit_" + level + ".yml"
  }

  /** Different levels of a non-windows target never share a playbook. */
  lemma PlaybookPerLevel(os: string, level1: string, level2: string)
    requires Lower(os) != "windows"
    ensures PlaybookFilename(os, level1) == PlaybookFilename(os, level2) <==> level1 == level2
  {
    var p1, p2 := PlaybookFilename(os, level1), PlaybookFilename(os, level2);
    if p1 == p2 {
      assert |level1| == |level2|;
      forall i | 0 <= i < |level1|
        ensures level1[i] == level2[i]
      {
        assert p1[10 + i] == level1[i] && p2[10 + i] == level2[i];
      }
    }
  }

  function PlaybookNotFound(filename: string, baseDir: string): string {
    "Playbook not found: " + filename + " (looked in " + baseDir + "/playbooks and " + baseDir + ")"
  }

  /** How one audit ends: the new status, results and error message. */
  datatype Finish = Finish(status: Status, results: seq<CheckResult>, error: Option<string>)

  /** The except branch: failed, with the error and a single Execution Error result. */
  function ErrorFinish(msg: string): Finish {
    Finish(Status.Failed, [CheckResult("Execution Error", Verdict.Failed, "Error: " + msg)], Some(msg))
  }

  const NoChecksDetected := "Playbook executed successfully but no specific CIS checks were detected"

  /** The one result recorded when the parser finds nothing. */
  function EmptyParseResult(status: string): CheckResult {
    if status == "successful" then CheckResult("Ansible Execution", Passed, NoChecksDetected)
    else if status == "failed" then
      CheckResult("Ansible Execution", Verdict.Failed, "Playbook execution failed. Check logs for details.")
    else CheckResult("Ansible Execution", Verdict.Failed, "Playbook execution status: " + status)
  }

  /**
   * The outcome of run_audit_single for a target with the given OS and level,
   * when `available` holds the playbook files that exist.
   */
  function AuditFinish(os: string, level: string, available: set<string>, baseDir: string, engine: EngineOutcome): Finish {
    var filename := PlaybookFilename(os, level);
    if filename !in available then ErrorFinish(PlaybookNotFound(filename, baseDir))
    else
      match engine
      case Raised(err) => ErrorFinish(err)
      case Finished(status, events) =>
        var parsed := ParseResults(events, status);
        Finish(Completed, if parsed == [] then [EmptyParseResult(status)] else parsed, None)
  }

  /**
   * Every audit ends completed or failed with at least one result; a failed
   * audit carries its error and exactly one Execution Error result, a
   * completed one carries no error.
   */
  lemma AuditFinishSpec(os: string, level: string, available: set<string>, baseDir: string, engine: EngineOutcome)
    ensures var f := AuditFinish(os, level, available, baseDir, engine);
      && IsTerminal(f.status)
      && f.results != []
      && (f.status == Status.Failed <==> f.error.Some?)
      && (f.status == Status.Failed ==>
            f.results == [CheckResult("Execution Error", Verdict.Failed, "Error: " + f.error.value)])
      && (engine.Raised? && PlaybookFilename(os, level) in available ==> f == ErrorFinish(engine.error))
      && (engine.Finished? && PlaybookFilename(os, level) in available ==> f.status == Completed)
  {
  }

  /**
   * When the parser finds nothing, a completed audit has exactly one
   * Ansible Execution result, and it is PASSED exactly when the run status is
   * "successful".
   */
  lemma EmptyParseSynthesis(os: string, level: string, available: set<string>, baseDir: string, status: string, events: seq<Event>)
    requires PlaybookFilename(os, level) in available
    requires ParseResults(events, status) == []
    ensures var f := AuditFinish(os, level, available, baseDir, Finished(status, events));
      && f.status == Completed
      && |f.results| == 1 && f.results[0].check == "Ansible Execution"
      && (f.results[0].verdict == Passed <==> status == "successful")
  {
  }

  /**
   * The parser never returns nothing for a failed run, so a completed audit
   * of a failed run always keeps the parser's results: the "failed" branch of
   * the empty-parse summary can never be taken.
   */
  lemma FailedRunNeverEmpty(events: seq<Event>)
    ensures ParseResults(events, "failed") != []
    ensures forall available, os, level, baseDir :: PlaybookFilename(os, level) in available ==>
      AuditFinish(os, level, available, baseDir, Finished("failed", events)).results == ParseResults(events, "failed")
  {
  }

  // ---------------------------------------------------------------------
  // The result store.

  /** audit_results_storage: audit id -> target, and the history of publications. */
  class ResultStore {
    var entries: map<string, AuditTarget>
    /** Every publication, in order: the id and the status at that moment. */
    ghost var published: seq<(string, Status)>

    /** Every target is stored under its own audit id. */
    ghost predicate Valid()
      reads this
    {
      forall id :: id in entries ==> entries[id].auditId == id
    }

    constructor ()
      ensures entries == map[] && published == [] && Valid()
    {
      entries := map[];
      published := [];
    }

    /** audit_results_storage[target.audit_id] = target: no other key changes. */
    method Publish(t: AuditTarget)
      modifies this
      ensures entries == old(entries)[t.auditId := t]
      ensures published == old(published) + [(t.auditId, t.status)]
      ensures old(Valid()) ==> Valid()
    {
      entries := entries[t.auditId := t];
      published := published + [(t.auditId, t.status)];
    }

    /**
     * get_audit_results: 'Audit not found' for an unknown id; otherwise the
     * target's fields and its check counts, which add up to the total.
     */
    method GetAuditResults(id: string) returns (r: Result<AuditReport>)
      ensures id !in entries ==> r == Err("Audit not found")
      ensures id in entries ==> r.Ok?
      ensures r.Ok? ==>
        var t := entries[id];
        && r.value.auditId == id && r.value.ip == t.ip && r.value.os == t.os
        && r.value.status == t.status && r.value.results == t.results
        && r.value.summary.totalChecks == |t.results|
        && r.value.summary.passedChecks == CountVerdict(t.results, Passed)
        && r.value.summary.failedChecks == CountVerdict(t.results, Verdict.Failed)
        && r.value.summary.passedChecks + r.value.summary.failedChecks == r.value.summary.totalChecks
    ensures Valid() && r.Ok? ==> entries[id].auditId == r.value.auditId
    {
      if id !in entries {
        return Err("Audit not found");
      }
      var t := entries[id];
      VerdictCountsSum(t.results);
      var summary := CheckSummary(|t.results|, CountVerdict(t.results, Passed), CountVerdict(t.results, Verdict.Failed));
      return Ok(AuditReport(id, t.ip, t.os, t.status, t.results, summary));
    }
  }

  datatype CheckSummary = CheckSummary(totalChecks: nat, passedChecks: nat, failedChecks: nat)

  /** The successful answer of get_audit_results. */
  datatype AuditReport = AuditReport(auditId: string, ip: string, os: string, status: Status,
                                     results: seq<CheckResult>, summary: CheckSummary)

  /**
   * The try block of run_audit_single and its except branch: pick the
   * playbook, run the engine, parse its events, and fall back on a summary
   * result when nothing was parsed; any raise gives the error outcome.
   */
  method ExecuteAudit(os: string, level: string, available: set<string>, baseDir: string, engine: EngineOutcome)
    returns (f: Finish)
    ensures f == AuditFinish(os, level, available, baseDir, engine)
  {
    var filename := PlaybookFilename(os, level);
    if filename !in available {
      return ErrorFinish(PlaybookNotFound(filename, baseDir));
    }
    match engine
    case Raised(err) =>
      f := ErrorFinish(err);
    case Finished(status, events) =>
      var results := ParseAnsibleResults(events, status);
      if results == [] {
        results := [EmptyParseResult(status)];
      }
      f := Finish(Completed, results, None);
  }

  /**
   * run_audit_single: the target is published as running before any work
   * and published again once it has finished; its final status, results and
   * error are those of AuditFinish; no other store key changes.
   */
  method RunAuditSingle(store: ResultStore, target: AuditTarget, available: set<string>, baseDir: string,
                        engine: EngineOutcome, startTime: int, endTime: int)
    modifies store, target
    ensures var f := AuditFinish(target.os, target.level, available, baseDir, engine);
      && target.status == f.status && target.results == f.results
      && target.errorMessage == (if f.error.Some? then f.error else old(target.errorMessage))
    ensures target.startTime == Some(startTime) && target.endTime == Some(endTime)
    ensures store.entries == old(store.entries)[target.auditId := target]
    ensures store.published == old(store.published) + [(target.auditId, Running), (target.auditId, target.status)]
    ensures old(store.Valid()) ==> store.Valid()
  {
    ghost var entries0, published0 := store.entries, store.published;
    BeginAudit(store, target, startTime);
    ghost var published1 := store.published;
    var f := ExecuteAudit(target.os, target.level, available, baseDir, engine);
    EndAudit(store, target, f, endTime);
    UpdateTwice(entries0, target.auditId, target);
    assert published1 == published0 + [(target.auditId, Running)];
    assert store.published == published0 + [(target.auditId, Running), (target.auditId, f.status)];
  }

  lemma UpdateTwice<K, V>(m: map<K, V>, k: K, v: V)
    ensures m[k := v][k := v] == m[k := v]
  {
  }

  /** The start of run_audit_single: running, with its start time, and published. */
  method BeginAudit(store: ResultStore, target: AuditTarget, startTime: int)
    modifies store, target
    ensures target.startTime == Some(startTime) && target.status == Running
    ensures target.results == old(target.results) && target.endTime == old(target.endTime)
    ensures target.errorMessage == old(target.errorMessage)
    ensures store.entries == old(store.entries)[target.auditId := target]
    ensures store.published == old(store.published) + [(target.auditId, Running)]
    ensures old(store.Valid()) ==> store.Valid()
  {
    target.startTime := Some(startTime);
    target.status := Running;
    store.Publish(target);
  }

  /** The end of run_audit_single: the outcome recorded with the end time, and published. */
  method EndAudit(store: ResultStore, target: AuditTarget, f: Finish, endTime: int)
    modifies store, target
    ensures target.status == f.status && target.results == f.results
    ensures target.errorMessage == (if f.error.Some? then f.error else old(target.errorMessage))
    ensures target.startTime == old(target.startTime) && target.endTime == Some(endTime)
    ensures store.entries == old(store.entries)[target.auditId := target]
    ensures store.published == old(store.published) + [(target.auditId, f.status)]
    ensures old(store.Valid()) ==> store.Valid()
  {
    target.status := f.status;
    target.results := f.results;
    if f.error.Some? {
      target.errorMessage := f.error;
    }
    target.endTime := Some(endTime);
    store.Publish(target);
  }

  // ---------------------------------------------------------------------
  // The batch.

  /**
   * What happened to the worker of one target: it ran the audit (with the
   * engine's outcome and the two clock readings), or the worker itself raised
   * before running it and a placeholder target with the given id stands in.
   */
  datatype WorkerOutcome =
    | Ran(available: set<string>, baseDir: string, engine: EngineOutcome, startTime: int, endTime: int)
    | Crashed(error: string, placeholderId: string)

  /** One entry of the batch response's 'targets' list. */
  datatype TargetInfo = TargetInfo(
    auditId: string, ip: string, username: string, os: string, level: string, status: Status,
    startTime: Option<int>, endTime: Option<int>, duration: Option<int>, errorMessage: Option<string>,
    resultsCount: nat, passedChecks: nat, failedChecks: nat)

  datatype BatchSummary = BatchSummary(totalTargets: nat, successful: nat, failed: int)

  datatype BatchResponse =
    | BatchFailed(error: string)
    | BatchDone(batchId: string, summary: BatchSummary, targets: seq<TargetInfo>)

  /** The number of entries with the given status. */
  function CountStatus(infos: seq<TargetInfo>, s: Status): (n: nat)
    ensures n <= |infos|
  {
    if infos == [] then 0
    else CountStatus(infos[..|infos| - 1], s) + (if infos[|infos| - 1].status == s then 1 else 0)
  }

  /** The number of entries whose status is not the given one. */
  function CountOtherStatus(infos: seq<TargetInfo>, s: Status): nat {
    if infos == [] then 0
    else CountOtherStatus(infos[..|infos| - 1], s) + (if infos[|infos| - 1].status != s then 1 else 0)
  }

  /** The batch summary: successful counts completed targets, failed is the rest. */
  function Summarize(infos: seq<TargetInfo>): BatchSummary {
    var successful := CountStatus(infos, Completed);
    BatchSummary(|infos|, successful, |infos| - successful)
  }

  /**
   * The summary counts add up; failed counts exactly the targets that did not
   * complete, and when every target has finished, exactly the failed ones.
   */
  lemma {:induction false} SummaryCounts(infos: seq<TargetInfo>)
    ensures var s := Summarize(infos);
      && s.totalTargets == s.successful + s.failed
      && s.failed == CountOtherStatus(infos, Completed)
      && ((forall k :: 0 <= k < |infos| ==> IsTerminal(infos[k].status)) ==>
            s.failed == CountStatus(infos, Status.Failed))
  {
    if infos != [] {
      SummaryCounts(infos[..|infos| - 1]);
    }
  }

  /** The response entry of a target. */
  function InfoOf(t: AuditTarget): TargetInfo
    reads t
  {
    var duration := if t.startTime.Some? && t.endTime.Some? then Some(t.endTime.value - t.startTime.value) else None;
    TargetInfo(t.auditId, t.ip, t.username, t.os, t.level, t.status, t.startTime, t.endTime, duration,
               t.errorMessage, |t.results|, CountVerdict(t.results, Passed), CountVerdict(t.results, Verdict.Failed))
  }

  function ThreadError(error: string): CheckResult {
    CheckResult("Thread Execution Error", Verdict.Failed, "Error: " + error)
  }

  /**
   * The entry for a worker that raised: a placeholder target
   * AuditTarget("unknown", "unknown", "unknown") marked failed, with one
   * Thread Execution Error result, no start and no end time.
   */
  function CrashInfo(err: string, placeholderId: string): TargetInfo {
    TargetInfo(placeholderId, "unknown", "unknown", "ubuntu", "level1", Status.Failed, None, None, None, Some(err), 1, 0, 1)
  }

  /** The except branch of the batch loop: the placeholder target and its entry. */
  method Placeholder(err: string, placeholderId: string) returns (info: TargetInfo)
    ensures info == CrashInfo(err, placeholderId)
  {
    var placeholder := new AuditTarget("unknown", "unknown", "unknown", "ubuntu", "level1", placeholderId);
    placeholder.status := Status.Failed;
    placeholder.errorMessage := Some(err);
    placeholder.results := [ThreadError(err)];
    info := InfoOf(placeholder);
  }

  /** The response entry the batch reports for the k-th target of the file. */
  function ExpectedInfo(rec: TargetRecord, id: string, w: WorkerOutcome): TargetInfo {
    match w
    case Crashed(err, pid) => CrashInfo(err, pid)
    case Ran(available, baseDir, engine, startTime, endTime) =>
      var os, level := Lower(rec.os), TargetLevel(rec.os, rec.level);
      var f := AuditFinish(os, level, available, baseDir, engine);
      TargetInfo(id, rec.ip, rec.username, os, level, f.status, Some(startTime), Some(endTime),
                 Some(endTime - startTime), f.error, |f.results|,
                 CountVerdict(f.results, Passed), CountVerdict(f.results, Verdict.Failed))
  }

  /**
   * Every reported target has finished and its check counts add up; a
   * placeholder for a crashed worker is failed with one result and no end
   * time, a target that ran has both times.
   */
  lemma ExpectedInfoSpec(rec: TargetRecord, id: string, w: WorkerOutcome)
    ensures var info := ExpectedInfo(rec, id, w);
      && IsTerminal(info.status)
      && info.passedChecks + info.failedChecks == info.resultsCount >= 1
      && (w.Crashed? ==> info.status == Status.Failed && info.endTime == None && info.errorMessage == Some(w.error))
      && (w.Ran? ==> info.startTime.Some? && info.endTime.Some? && info.auditId == id)
  {
    if w.Ran? {
      var f := AuditFinish(Lower(rec.os), TargetLevel(rec.os, rec.level), w.available, w.baseDir, w.engine);
      AuditFinishSpec(Lower(rec.os), TargetLevel(rec.os, rec.level), w.available, w.baseDir, w.engine);
      VerdictCountsSum(f.results);
    }
  }

  /**
   * One worker of the pool: it runs the audit of its target, or, when the
   * worker raised, builds the failed placeholder target; either way the
   * response entry is the expected one.
   */
  method RunWorker(store: ResultStore, target: AuditTarget, ghost rec: TargetRecord, ghost id: string, w: WorkerOutcome)
    returns (info: TargetInfo)
    requires BuiltFrom(target, rec, id)
    modifies store, target
    ensures info == ExpectedInfo(rec, id, w)
    ensures store.entries == if w.Ran? then old(store.entries)[id := target] else old(store.entries)
    ensures w.Ran? ==> InfoOf(target) == info
    ensures old(store.Valid()) ==> store.Valid()
  {
    match w
    case Ran(available, baseDir, engine, startTime, endTime) =>
      ghost var f := AuditFinish(target.os, target.level, available, baseDir, engine);
      assert target.errorMessage == None;
      RunAuditSingle(store, target, available, baseDir, engine, startTime, endTime);
      assert target.errorMessage == f.error;
      info := InfoOf(target);
      assert info == TargetInfo(id, rec.ip, rec.username, target.os, target.level, f.status, Some(startTime), Some(endTime),
                                Some(endTime - startTime), f.error, |f.results|,
                                CountVerdict(f.results, Passed), CountVerdict(f.results, Verdict.Failed));
    case Crashed(err, pid) =>
      info := Placeholder(err, pid);
  }

  /**
   * run_audit_batch, with the workers run one after the other in file order:
   * a file error or an empty file is reported as failure and stores nothing;
   * otherwise one entry per target and the summary of their statuses, and
   * every target whose worker ran is stored under its id with exactly the
   * figures reported for it, while every other id keeps its entry.
   */
  method RunAuditBatch(store: ResultStore, file: Option<seq<string>>, path: string, ids: seq<string>,
                       batchId: string, outcomes: seq<WorkerOutcome>)
    returns (r: BatchResponse)
    requires file.Some? ==> |ids| >= |file.value| && |outcomes| >= |file.value|
    requires DistinctNames(ids)
    modifies store
    ensures file.None? ==> r == BatchFailed("Targets file not found: " + path)
    ensures file.Some? && TargetRecords(file.value) == [] ==> r == BatchFailed("No valid targets found")
    ensures file.None? || TargetRecords(file.value) == [] ==> store.entries == old(store.entries)
    ensures file.Some? && TargetRecords(file.value) != [] ==>
      var recs := TargetRecords(file.value);
      && r.BatchDone? && r.batchId == batchId
      && |r.targets| == |recs|
      && (forall k :: 0 <= k < |recs| ==> r.targets[k] == ExpectedInfo(recs[k], ids[k], outcomes[k]))
      && r.summary == Summarize(r.targets)
    ensures file.Some? && TargetRecords(file.value) != [] ==>
      var n := |TargetRecords(file.value)|;
      && store.entries.Keys == old(store.entries).Keys + RanIds(ids, outcomes, n)
      && (forall k :: 0 <= k < n && outcomes[k].Ran? ==>
            store.entries[ids[k]].auditId == ids[k] && InfoOf(store.entries[ids[k]]) == r.targets[k])
      && (forall key :: key in old(store.entries) && key !in RanIds(ids, outcomes, n) ==>
            store.entries[key] == old(store.entries)[key])
    ensures old(store.Valid()) ==> store.Valid()
  {
    var parsed := ParseTargetsFile(file, path, ids);
    if parsed.Err? {
      return BatchFailed(parsed.error);
    }
    var targets := parsed.value;
    if targets == [] {
      return BatchFailed("No valid targets found");
    }
    ghost var entries0 := store.entries;
    var infos := RunWorkers(store, targets, TargetRecords(file.value), ids, outcomes);
    StoredSpec(entries0, targets, ids, outcomes, |targets|);
    return BatchDone(batchId, Summarize(infos), infos);
  }

  /**
   * The store after the first n workers: each worker that ran has published
   * its target under its id, in order; a crashed worker publishes nothing.
   */
  function Stored(m: map<string, AuditTarget>, targets: seq<AuditTarget>, ids: seq<string>,
                  outcomes: seq<WorkerOutcome>, n: nat): map<string, AuditTarget>
    requires n <= |targets| && n <= |ids| && n <= |outcomes|
  {
    if n == 0 then m
    else
      var s := Stored(m, targets, ids, outcomes, n - 1);
      if outcomes[n - 1].Ran? then s[ids[n - 1] := targets[n - 1]] else s
  }

  /** The ids of the first n targets whose worker ran. */
  function RanIds(ids: seq<string>, outcomes: seq<WorkerOutcome>, n: nat): set<string>
    requires n <= |ids| && n <= |outcomes|
  {
    set k | 0 <= k < n && outcomes[k].Ran? :: ids[k]
  }

  /**
   * With distinct ids, the store after the first n workers holds exactly the
   * old ids and those of the workers that ran; each such id maps to its own
   * target, and every other id keeps its old entry.
   */
  lemma {:induction false} StoredSpec(m: map<string, AuditTarget>, targets: seq<AuditTarget>, ids: seq<string>,
                                      outcomes: seq<WorkerOutcome>, n: nat)
    requires n <= |targets| && n <= |ids| && n <= |outcomes|
    requires DistinctNames(ids)
    ensures Stored(m, targets, ids, outcomes, n).Keys == m.Keys + RanIds(ids, outcomes, n)
    ensures forall k :: 0 <= k < n && outcomes[k].Ran? ==> Stored(m, targets, ids, outcomes, n)[ids[k]] == targets[k]
    ensures forall key :: key in m && key !in RanIds(ids, outcomes, n) ==> Stored(m, targets, ids, outcomes, n)[key] == m[key]
  {
    if n > 0 {
      StoredSpec(m, targets, ids, outcomes, n - 1);
      var prev, ran := RanIds(ids, outcomes, n - 1), RanIds(ids, outcomes, n);
      assert ran == prev + (if outcomes[n - 1].Ran? then {ids[n - 1]} else {});
      forall k | 0 <= k < n - 1 && outcomes[k].Ran?
        ensures Stored(m, targets, ids, outcomes, n)[ids[k]] == targets[k]
      {
        assert ids[k] != ids[n - 1];
      }
    }
  }

  /** infos[j] is the expected entry of the j-th target, for every entry so far. */
  predicate InfosMatch(infos: seq<TargetInfo>, recs: seq<TargetRecord>, ids: seq<string>, outcomes: seq<WorkerOutcome>)
    requires |infos| <= |recs| && |infos| <= |ids| && |infos| <= |outcomes|
  {
    forall j :: 0 <= j < |infos| ==> infos[j] == ExpectedInfo(recs[j], ids[j], outcomes[j])
  }

  lemma InfosMatchSnoc(infos: seq<TargetInfo>, info: TargetInfo, recs: seq<TargetRecord>, ids: seq<string>,
                       outcomes: seq<WorkerOutcome>)
    requires |infos| < |recs| && |infos| < |ids| && |infos| < |outcomes|
    requires InfosMatch(infos, recs, ids, outcomes)
    requires info == ExpectedInfo(recs[|infos|], ids[|infos|], outcomes[|infos|])
    ensures InfosMatch(infos + [info], recs, ids, outcomes)
  {
    var xs := infos + [info];
    forall j | 0 <= j < |xs|
      ensures xs[j] == ExpectedInfo(recs[j], ids[j], outcomes[j])
    {
      if j < |infos| {
        assert xs[j] == infos[j];
        assert infos[j] == ExpectedInfo(recs[j], ids[j], outcomes[j]);
      } else {
        assert j == |infos| && xs[j] == info;
      }
    }
  }

  /** The targets from k on are still as built from their lines. */
  predicate RestBuiltFrom(targets: seq<AuditTarget>, k: nat, recs: seq<TargetRecord>, ids: seq<string>)
    requires |targets| <= |recs| && |targets| <= |ids|
    reads set t | t in targets
  {
    forall j :: k <= j < |targets| ==> BuiltFrom(targets[j], recs[j], ids[j])
  }

  /** The targets before k that ran still show the entries reported for them. */
  predicate RanShow(targets: seq<AuditTarget>, k: nat, infos: seq<TargetInfo>, outcomes: seq<WorkerOutcome>)
    requires k <= |targets| && k <= |infos| && k <= |outcomes|
    reads set t | t in targets
  {
    forall j :: 0 <= j < k && outcomes[j].Ran? ==> InfoOf(targets[j]) == infos[j]
  }

  /**
   * The workers of a batch, one after the other in file order: one expected
   * entry per target, and the store as Stored describes it, each target that
   * ran still showing its reported entry.
   */
  method RunWorkers(store: ResultStore, targets: seq<AuditTarget>, ghost recs: seq<TargetRecord>, ids: seq<string>,
                    outcomes: seq<WorkerOutcome>)
    returns (infos: seq<TargetInfo>)
    requires |targets| == |recs| <= |ids| && |targets| <= |outcomes|
    requires AllBuiltFrom(targets, recs, ids) && Distinct(targets)
    modifies store, set t | t in targets
    ensures |infos| == |targets|
    ensures forall k :: 0 <= k < |targets| ==> infos[k] == ExpectedInfo(recs[k], ids[k], outcomes[k])
    ensures store.entries == Stored(old(store.entries), targets, ids, outcomes, |targets|)
    ensures forall k :: 0 <= k < |targets| ==> targets[k].auditId == ids[k]
    ensures forall k :: 0 <= k < |targets| && outcomes[k].Ran? ==> InfoOf(targets[k]) == infos[k]
    ensures old(store.Valid()) ==> store.Valid()
  {
    infos := [];
    for k := 0 to |targets|
      invariant |infos| == k
      invariant InfosMatch(infos, recs, ids, outcomes)
      invariant RestBuiltFrom(targets, k, recs, ids)
      invariant RanShow(targets, k, infos, outcomes)
      invariant store.entries == Stored(old(store.entries), targets, ids, outcomes, k)
      invariant old(store.Valid()) ==> store.Valid()
    {
      infos := RunNext(store, targets, recs, ids, outcomes, infos);
    }
    assert InfosMatch(infos, recs, ids, outcomes);
  }

  /** One turn of the batch loop: the worker of the next target runs. */
  method RunNext(store: ResultStore, targets: seq<AuditTarget>, ghost recs: seq<TargetRecord>, ids: seq<string>,
                 outcomes: seq<WorkerOutcome>, infos: seq<TargetInfo>)
    returns (infos': seq<TargetInfo>)
    requires |infos| < |targets| == |recs| <= |ids| && |targets| <= |outcomes|
    requires Distinct(targets)
    requires InfosMatch(infos, recs, ids, outcomes)
    requires RestBuiltFrom(targets, |infos|, recs, ids)
    requires RanShow(targets, |infos|, infos, outcomes)
    modifies store, targets[|infos|]
    ensures |infos'| == |infos| + 1
    ensures InfosMatch(infos', recs, ids, outcomes)
    ensures RestBuiltFrom(targets, |infos'|, recs, ids)
    ensures RanShow(targets, |infos'|, infos', outcomes)
    ensures store.entries == if outcomes[|infos|].Ran? then old(store.entries)[ids[|infos|] := targets[|infos|]]
                             else old(store.entries)
    ensures old(store.Valid()) ==> store.Valid()
  {
    var k := |infos|;
    var t := targets[k];
    assert BuiltFrom(t, recs[k], ids[k]);
    var info := RunWorker(store, t, recs[k], ids[k], outcomes[k]);
    InfosMatchSnoc(infos, info, recs, ids, outcomes);
    infos' := infos + [info];
    forall j | 0 <= j < k && outcomes[j].Ran?
      ensures InfoOf(targets[j]) == infos'[j]
    {
      assert targets[j] != t;
      assert infos'[j] == infos[j];
    }
    forall j | k + 1 <= j < |targets|
      ensures BuiltFrom(targets[j], recs[j], ids[j])
    {
      assert targets[j] != t;
    }
  }
}
