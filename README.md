# cis-auditor: audit orchestration, modelled in Dafny

cis-auditor audits hosts against CIS benchmarks. The hosts are listed in a
targets file (`IP USERNAME KEY_PATH OS [LEVEL]`), and an Ansible playbook is
run against each host. Every check the playbook reports becomes a PASSED or
FAILED result with a remediation text. The results are kept in an in-memory
store, served over a Flask API and summarised in PDF reports.

This project models the orchestration core of the system and proves what it
promises:

- **Targets** (`audit.dfy`, module `Audit`)
  - The `AuditTarget` record, with its life-cycle pending, running, then
    completed or failed.
  - The targets-file line parser and the loop of `parse_targets_file`.
- **Event parser** (`event_parser.dfy`, module `EventParser`)
  - `parse_ansible_results`: the reducer from Ansible runner events to check
    results.
  - A "current check" cursor that is opened by check tasks and resolved by
    result tasks.
  - Emission in dict insertion order.
  - The synthetic entries the run status adds.
- **Runner** (`runner.dfy`, module `Runner`)
  - `run_audit_single`: the playbook choice, the engine outcome, the
    empty-parse summary and the error branch.
  - Publication in the result store, and `get_audit_results`.
  - `run_audit_batch`: one worker per target, the crash placeholder, and the
    summary.
- **Web API** (`web_api.dfy`, module `WebApi`)
  - `allowed_file`.
  - The validation and normalisation of an `audit_single` request.
  - The line filter and partition of `upload_test`.
  - The `scheduled_audits` table: `create_schedule`, `delete_schedule`, and
    one pass of `schedule_checker`.
- **PDF report figures** (`report.dfy`, module `Report`)
  - `truncate_text`.
  - The passed and failed counts.
  - The risk level of the executive summary.
  - The remediation column.

Supporting modules:

- `text.dfy` (module `Text`) models the Python string operations the core
  relies on: `strip`, `split()`, `lower` (ASCII), `in` on strings, `startswith`,
  `split('\n')`, `join`, `str(int)` and slicing with a possibly negative bound.
- `wrappers.dfy` holds the `Option` and `Result` types.

Several things outside the program are parameters:

- **The Ansible engine** is an `EngineOutcome`. It is either the error that was
  raised, or the run's final status and its event stream.
- **The file system** is reduced to:
  - the set of playbook files that exist;
  - the lines of a targets file, or `None` when the file is missing;
  - the content of an uploaded file.
- **Clocks, uuids and the parsed schedule moment** are plain values passed in
  by the caller.

The objects that the source updates in place are classes:

- `AuditTarget`;
- the result store `audit_results_storage`;
- the schedule table `scheduled_audits`.

The loops of the source are methods with loop invariants. Each of these
methods is proved equal to a specification function, and the properties are
proved as lemmas about that function:

- `parse_targets_file`;
- `parse_ansible_results`;
- the batch loop;
- `upload_test`;
- the scheduler's selection and update loops.

## Model

| member | source | states |
|---|---|---|
| Audit.AuditTarget.constructor | api.py:29-42 | A new target keeps ip, username and key path as given and lowercases the OS. A windows target (in any case) gets level "default"; otherwise the level is kept. It starts pending, with no results, no times and no error. |
| Audit.VerdictCountsSum | api.py:314-316 | Every result is PASSED or FAILED, so the passed and failed counts add up to the number of results. |
| Audit.ParseLineAccepts | api.py:59-66 | A blank line never yields a target. A line yields a target exactly when it is not blank, does not start with '#' after stripping, and has at least four whitespace-separated fields. |
| Audit.ParseLineFields | api.py:63-74 | An accepted line's target takes fields 1 to 4 as ip, username, key and OS. The fifth field is the level when present; otherwise the level is "level1", or "default" for windows. Every field is non-empty and contains no whitespace. |
| Audit.TargetRecordsAppend | api.py:58-74 | The lines of a file contribute independently and in file order: parsing a + b gives the targets of a followed by those of b. |
| Audit.TargetRecordsOfLine | api.py:58-74 | A single line gives one target when accepted and none otherwise. |
| Audit.TargetRecordsBound | api.py:58-74 | There are never more targets than lines, and every target comes from some accepted line. |
| Audit.TargetsOfLines | api.py:58-74 | The loop builds one fresh, distinct target per accepted line, in file order. The k-th target is built from the k-th accepted record with the k-th id, and it has not yet run. |
| Audit.ParseTargetsFile | api.py:44-77 | A missing file gives "Targets file not found: <path>". An existing file gives the targets of its accepted lines, as TargetsOfLines states. |
| EventParser.PostProcess | api.py:866-879 | The parsed checks stay in front, and at most one FAILED entry follows them. An unreachable run adds "Host Connectivity". A failed run with no checks gives exactly one "Playbook Execution" result. Any other run is left unchanged. |
| EventParser.DedupDistinct | api.py:836-839 | De-duplication keeps each name once and keeps exactly the names of the input, so the dict's insertion order never repeats a check. |
| EventParser.RunValid | api.py:831-856 | On a run that has not raised, the parser state keeps its invariant. The dict keys are exactly the opened checks, each once, in the order in which they were first opened. The cursor names one of them. A PASSED entry has an empty remediation. |
| EventParser.EmitSound | api.py:857-864 | Every emitted result is a resolved entry of the dict, with that entry's verdict and remediation. |
| EventParser.EmitComplete | api.py:857-864 | Every resolved entry of the dict is emitted. |
| EventParser.EmitOrdered | api.py:857-864 | Results are emitted in the order in which their checks were first opened. |
| EventParser.ParsedChecksFirst | api.py:821-880 | For a run that did not raise, the output consists of: the emitted checks, which are exactly the opened checks that were resolved, in first-opened order, with an empty remediation when PASSED; then at most one synthetic FAILED entry. |
| EventParser.RunFromAppend | api.py:831-856 | Running over a + b is running over a, then over b from the resulting state; a raise in a ends the run. |
| EventParser.IgnoredBeforeOpen | api.py:842-843 | Result tasks and other events that come before the first check task do not change the output. |
| EventParser.ErrSticks | api.py:881-887 | Once reading an event raises, later events do not matter. |
| EventParser.PassResultEffect | api.py:845-848 | A "Pass" result task on a runner_on_ok event resolves the open check to PASSED with an empty remediation, and that check is emitted. |
| EventParser.FailResultEffect | api.py:849-855 | A "Fail" result task on a runner_on_failed event resolves the open check to FAILED. The remediation is the res msg, or "No remediation provided" when there is none. An unreadable res raises. |
| EventParser.IgnoredResultEvent | api.py:842-855 | Every other result event changes nothing: a Pass task on any other event kind, a Fail task on any other kind, a result task naming neither, or any result task while no check is open. |
| EventParser.ReopenDrops | api.py:836-839 | Re-opening a known check resets it to UNKNOWN at its original position, so it is no longer emitted. |
| EventParser.ParseAnsibleResults | api.py:821-889 | The imperative loop, emission and post-processing return exactly ParseResults, which the lemmas above characterise. A raise gives one "Result Parsing Error" result. |
| Runner.PlaybookPerLevel | api.py:102-105 | For a non-windows target, two levels share a playbook file exactly when they are the same level. |
| Runner.AuditFinishSpec | api.py:79-207 | Every audit ends completed or failed, with at least one result. It is failed exactly when it carries an error. A failed audit has exactly one "Execution Error" result holding that error. An engine that raises fails the audit. An engine that finishes completes it. |
| Runner.EmptyParseSynthesis | api.py:164-183 | When the parser finds nothing, a completed audit has exactly one "Ansible Execution" result. That result is PASSED exactly when the run status is "successful". |
| Runner.FailedRunNeverEmpty | api.py:172-177 | The parser never returns nothing for a failed run, so the audit keeps the parser's results. The "failed" branch of the empty-parse summary cannot be reached. |
| Runner.ResultStore.constructor | api.py:26-27 | The store starts empty and satisfies its invariant. |
| Runner.ResultStore.Publish | api.py:87-89 | Publishing stores the target under its own audit id, changes no other id, keeps the invariant, and records the publication with the target's status. |
| Runner.ResultStore.GetAuditResults | api.py:298-318 | An unknown id gives "Audit not found". A stored id gives the target's id, ip, OS, status and results, with total, passed and failed counts that add up. In a store where every target sits under its own audit id, the reported id is the stored target's audit_id. |
| Runner.ExecuteAudit | api.py:91-207 | The try and except blocks compute exactly the AuditFinish outcome: playbook not found, an engine raise, the parsed results, or the empty-parse summary. |
| Runner.BeginAudit | api.py:84-89 | The target becomes running with its start time. Its results, end time and error are unchanged. It is published as running. |
| Runner.EndAudit | api.py:185-211 | The target takes the outcome's status and results, the error when there is one, and its end time. It is published with that status. |
| Runner.RunAuditSingle | api.py:79-213 | The final status, results and error are those of AuditFinishSpec, and both times are set. The target is published twice, first as running and then with its final status. No other store entry changes. |
| Runner.SummaryCounts | api.py:260-272 | total = successful + failed. "failed" counts exactly the targets that did not complete. When every target has finished, that is the number of failed targets. |
| Runner.Placeholder | api.py:247-258 | A crashed worker is represented by an "unknown" target. It is failed, has the error and exactly one "Thread Execution Error" result, and has neither start nor end time. |
| Runner.ExpectedInfoSpec | api.py:277-293 | Every reported target has finished, and its passed and failed counts add up to its result count, which is at least 1. A placeholder is failed and has no end time. A target that ran has both times and keeps its id. |
| Runner.RunWorker | api.py:239-258 | One worker either runs its target's audit or builds the placeholder. Either way, the response entry is ExpectedInfo for its line, id and outcome. A worker that ran leaves its target stored under its id, showing exactly that entry, and changes no other id. A crashed worker's placeholder is never stored, so the store is unchanged. |
| Runner.RunWorkers | api.py:239-258 | The workers, run in file order, produce one response entry per target, and the k-th entry is the expected one. The store afterwards is Stored: the old store with each target that ran published under its id, in order. Every target that ran still shows its reported entry. |
| Runner.RunNext | api.py:243-258 | One turn of the batch loop: the next worker's entry is the expected one, the store gains that target under its id exactly when its worker ran, and the targets already run keep their reported figures. |
| Runner.StoredSpec | api.py:87-89 | With distinct ids, the store after the workers holds the old ids plus the ids of the workers that ran. Each such id maps to its own target, and every other id keeps its old entry. |
| Runner.RunAuditBatch | api.py:215-296 | A missing file is reported as an error, and so is a file without targets ("No valid targets found"). Otherwise there is one entry per accepted line, each the expected one, and the summary of their statuses. A failed batch stores nothing. After a successful batch, the store holds the old ids plus those of the workers that ran. Each of those ids maps to a target with that audit_id whose figures are exactly its response entry, so a later get_audit_results on it reports them. Every other id keeps its entry. |
| WebApi.ExtensionSpec | web_api.py:116-117 | There is an extension exactly when the name contains a '.'. It is the text after the last '.'. |
| WebApi.AllowedFileSpec | web_api.py:116-117 | A file is allowed exactly when it has a last '.' and the text after it, lowercased, is "txt", the one allowed extension. |
| WebApi.NormalizeOsSpec | web_api.py:189-191 | The normalised OS is lower-case and never "linux". "linux" in any case becomes "ubuntu". Normalising twice changes nothing. |
| WebApi.NormalizeLevelSpec | web_api.py:193-201 | "Level 1", "L1" and a missing level give "level1". "Level 2" and "L2" give "level2". Any other level is kept. Normalising twice changes nothing. |
| WebApi.MissingFromMembers | web_api.py:183-184 | A field is reported as missing exactly when it is required and absent. |
| WebApi.MissingFieldsSpec | web_api.py:183-186 | The missing fields are exactly the absent ones among ip, username, key and os, in that order. The list is empty exactly when all four are present. |
| WebApi.AuditRequestSpec | web_api.py:176-201 | No JSON data gives "No JSON data provided". A request is accepted exactly when it is a non-empty object holding the four required fields. The accepted request record then takes ip, username and key as given, a lower-case OS other than "linux", and the normalised level. The level of the target built from it is StartedLevel. |
| WebApi.StartedLevel | web_api.py:189-210 | The level of the target that audit_single builds is "default" whenever the requested OS is windows in any case, whatever level was asked for; otherwise it is the normalised level. |
| WebApi.AuditSingle | web_api.py:176-226 | An invalid request is refused with the message of AuditRequest. A valid one builds a fresh, unstarted target from the request record with the given audit id. A windows target reports level "default". |
| WebApi.KeptLinesStripped | web_api.py:564 | Every line upload_test keeps is non-empty and has no whitespace at either end. |
| WebApi.ClassifyPartition | web_api.py:567-583 | Every kept line lands in exactly one list. The valid list holds the previews of the lines with at least four fields. The invalid list numbers the lines with fewer. The two lengths add up to the number of kept lines. |
| WebApi.UploadTest | web_api.py:550-593 | A missing file gives "No file uploaded" and an empty filename gives "No file selected". Otherwise the content's lines are filtered, numbered from 1 and partitioned as in ClassifyPartition, and valid_targets is the number of valid entries. |
| WebApi.IndentedCommentKept | web_api.py:564 | As written, the filter keeps the indented comment line " #" and reports it as invalid line 1, while the targets-file parser skips it and the corrected filter drops it. |
| WebApi.CorrectedPreviewMatchesParser | web_api.py:564-583 | With the filter tested on the stripped line, the upload preview lists exactly the targets that the targets-file parser builds from the same lines, in the same order, each with its OS lowercased. |
| WebApi.ScheduleRequestSpec | web_api.py:448-466 | A schedule request is accepted exactly when it has a file, a non-empty date and time that parse, and a moment strictly after now. |
| WebApi.ScheduleTable.constructor | web_api.py:445-487 | The table starts empty and satisfies its invariant. |
| WebApi.ScheduleTable.CreateSchedule | web_api.py:445-500 | A rejected request changes nothing and returns the first failing check's message. An accepted one stores a scheduled entry under "schedule_<timestamp>" and changes no other id. |
| WebApi.ScheduleTable.CreateScheduleUnique | web_api.py:470-487 | The corrected create refuses an id that is already in use. An accepted request adds exactly one scheduled entry, and every existing entry keeps its value. |
| WebApi.ScheduleTable.DeleteSchedule | web_api.py:508-547 | A known id is removed (returning true) and nothing else changes. An unknown id gives "Schedule not found" and changes nothing. In a table where every entry sits under its own id, the id that list_schedules reports for an entry deletes it, and afterwards no remaining entry reports that id. |
| WebApi.ScheduleTable.SelectDue | web_api.py:616-622 | The selected ids are exactly the entries still scheduled whose moment is at or before now. |
| WebApi.ScheduleTable.SetStatus | web_api.py:630-631 | Only the status of the given entry changes. |
| WebApi.ScheduleTable.RunDue | web_api.py:611-650 | One pass: each due entry ends completed, or failed when its batch run raised. Every other entry and the set of ids are unchanged. |
| WebApi.SameSecondCollision | web_api.py:470-487 | As written, two schedules created in the same second both succeed with the same id, and only one entry remains. |
| WebApi.SameSecondKept | web_api.py:470-487 | With the corrected create, the second request of the same second is refused and the first entry is kept. |
| Report.TruncateTextSpec | pdf_generator.py:160-167 | No text gives "". A text of at most maxLength characters is kept. A longer one is cut to its first maxLength - 3 characters plus "...", which is exactly maxLength characters long. Truncating again changes nothing. |
| Report.SummarizeSpec | pdf_generator.py:215-217 | passed + failed = total. "failed" counts exactly the rows whose status does not contain PASSED, so it is never negative. |
| Report.ReportCountsAgree | pdf_generator.py:215-217 | On audit results, the report counts exactly the PASSED verdicts as passed and the FAILED ones as failed, in agreement with get_audit_results. |
| Report.RiskLevelSpec | pdf_generator.py:361-369 | There is a risk level exactly when some control failed. It is HIGH exactly below 70 % compliance and LOW exactly at 85 % or more. |
| Report.RiskMonotone | pdf_generator.py:361-369 | More passed controls out of the same total never raise the risk level. |
| Report.RemediationCellSpec | pdf_generator.py:389-412 | A row whose status contains PASSED shows "Control is compliant". Any other row, including one with no status, shows its remediation, or "No remediation provided" when it has none. |
| Report.RemediationOfResult | pdf_generator.py:389-412 | For an audit result, the column shows the remediation exactly when the check failed. |
| Text.TrimLeftSpec | api.py:59 | lstrip keeps a suffix of the string, drops only whitespace in front of it, and leaves nothing or a non-space character first. |
| Text.TrimRightSpec | api.py:59 | rstrip keeps a prefix of the string, drops only whitespace after it, and leaves nothing or a non-space character last. |
| Text.StripSpec | api.py:59-60 | The stripped line is empty exactly when the line is all whitespace. Otherwise it starts and ends with a non-space character. |
| Text.WordsOfStrip | api.py:63 | Splitting on whitespace gives the same fields before and after stripping. |
| Text.WordsAreWords | api.py:63 | Every field produced by the whitespace split is non-empty and contains no whitespace. |
| Text.LowerIsLower | api.py:35 | The lowercased string has no upper-case letter, and lowercasing it again changes nothing. |
| Text.JoinSplitOn | web_api.py:564 | Splitting on a character and joining with that character gives back the original content. |

## Left out

- **The Ansible engine** (`ansible_runner.run`) is not called.
  - Its outcome is a parameter: an error, or a final status with the event stream.
  - The private data directory, the inventory file, the extravars and the cleanup of the temporary directory are not modelled.
- **The file system** is reduced to three things:
  - the set of playbook files that exist;
  - the lines of a targets file, or its absence;
  - the content of an upload.
  - Directory creation, `file.save`, `os.remove` and `secure_filename` are not modelled.
- **Threads and locks** (`ThreadPoolExecutor`, `storage_lock`, `schedule_lock`) are not modelled.
  - The batch runs its workers one after another in file order. The source collects them in completion order, so the model fixes one of the possible orders of the response list.
  - A worker that raises is modelled as raising before its audit ran.
  - The scheduler thread's endless loop with `time.sleep(60)` is reduced to one pass (`RunDue`).
  - A schedule deleted while its audit runs is not modelled.
- **Clocks, uuids and `strptime`** are parameters: the start and end times, the audit ids and batch id, the Unix timestamp, and the parsed moment (`None` when parsing fails).
- **Durations** are differences of integers rather than `datetime` arithmetic.
- **Report percentages** use floating point in the source. The model compares them by cross-multiplication, so the rounding of a float at exactly 70 % or 85 % is not modelled.
- **The PDF layout** is not modelled: ReportLab, the chart, `wrap_text`, styles and the `format_percentage` text.
- **Other routes** are not modelled: the HTML report, the legacy `run_audit` entry point, and `list_schedules` with its sort.
- **Logging** and the Flask request and response glue are not modelled.
  - HTTP status codes and the generic "Internal server error" branch are not modelled.
  - JSON values are modelled as strings only.
  - An upload that is not valid UTF-8 is not modelled.
- **Lower-casing** (`Text.Lower`) covers ASCII letters only. Python's full Unicode case mapping is not modelled.
- **Runner.RunAuditBatch** requires one id and one worker outcome for each line of the file. In the source, both are generated on demand.
- **Runner.RunAuditBatch** requires the audit ids to be distinct. The source draws each one from uuid4 and relies on uuids not colliding.
- **WebApi.AuditSingle** stops once the target is built. The background thread that then runs the audit is not modelled; that audit is `Runner.RunAuditSingle`. The response reports the status "running" without reading the target.
- **WebApi.ScheduleTable.RunDue** reduces the batch audit that each due schedule runs to whether it raised. The batch's own results are not attached to the schedule, and neither are they in the source.
- **Report.ResultRow** keeps the status as an optional string. A result whose status key is missing is read as "" by the counts and as "UNKNOWN" by the remediation column, as in the source.
- **Remediation of a FAILED check**: a failing result whose res msg is the empty string records an empty remediation. Only a missing msg falls back to "No remediation provided" (`EventParser.FailRemediation`).

## Findings

| source | as written | input that shows it | evidently intended | confidence | as-written member | corrected member |
|---|---|---|---|---|---|---|
| web_api.py:564 | upload_test skips a comment only when the unstripped line starts with '#'. An indented comment is kept and previewed. | A line " #" is reported as "Line 1: #". A line "  # a b c d" is previewed as a target that parse_targets_file would skip. | Test for '#' on the stripped line, as parse_targets_file does, so the preview shows what a batch would audit. | medium, not executed | WebApi.IndentedCommentKept | WebApi.CorrectedPreviewMatchesParser |
| web_api.py:470-487 | The schedule id is "schedule_" plus the Unix second, and the entry is assigned unconditionally. | Two create_schedule requests in the same second: both return success with the same id, and only the second schedule remains. | Each accepted request adds its own entry; an id that is already in use is never overwritten. | high, not executed | WebApi.SameSecondCollision | WebApi.ScheduleTable.CreateScheduleUnique |
