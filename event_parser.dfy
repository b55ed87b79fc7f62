/**
 * parse_ansible_results (api.py): the reducer that turns the event stream of
 * one Ansible run into CIS check results. A "current check" cursor is opened
 * by check tasks; later result tasks resolve the open check to PASSED or
 * FAILED depending on the kind of the event; the resolved checks are emitted
 * in the insertion order of the check_results dict; the run status may add one
 * synthetic entry.
 */
module EventParser {
  import opened Wrappers
  import opened Text
  import opened Audit

  /** What `event_data.get('res', {}).get('msg', ...)` finds in an event. */
  datatype ResMsg =
    | Missing               // no 'res' or no 'msg' key
    | Present(msg: string)  // the 'msg' string
    | Broken(error: string) // 'res' is not a mapping: reading it raises

  /**
   * One runner event: its 'event' kind, its task name, and its 'res' payload;
   * or an event whose event_data cannot be read at all (reading it raises).
   */
  datatype Event =
    | Event(kind: string, task: string, res: ResMsg)
    | BrokenEvent(error: string)

  /** A task that opens a check: it names CIS and Check and is no Result: task. */
  predicate IsCheckTask(task: string) {
    Contains(task, "CIS") && Contains(task, "Check") && !Contains(task, "Result:")
  }

  /** A task that reports on the open check. */
  predicate IsResultTask(task: string) {
    Contains(task, "CIS") && Contains(task, "Result:")
  }

  /** The value of one check_results entry: 'UNKNOWN' or a verdict with its remediation. */
  datatype CheckState = Unknown | Resolved(verdict: Verdict, remediation: string)

  /**
   * The loop state: the current_check cursor and the check_results dict,
   * split into its insertion order and its key/value table.
   */
  datatype ParserState = ParserState(current: Option<string>, order: seq<string>, table: map<string, CheckState>)

  const Init := ParserState(None, [], map[])

  const NoRemediation := "No remediation provided"

  /** The remediation a failing result task records. */
  function FailRemediation(res: ResMsg): string
    requires !res.Broken?
  {
    match res
    case Missing => NoRemediation
    case Present(m) => m
  }

  /** The effect of one event on the state; Err when reading the event raises. */
  function Step(st: ParserState, e: Event): Result<ParserState> {
    match e
    case BrokenEvent(err) => Err(err)
    case Event(kind, task, res) =>
      if IsCheckTask(task) then
        var order := if task in st.order then st.order else st.order + [task];
        Ok(ParserState(Some(task), order, st.table[task := Unknown]))
      else if st.current.Some? && IsResultTask(task) then
        var c := st.current.value;
        if Contains(task, "Pass") then
          if kind == "runner_on_ok" then Ok(st.(table := st.table[c := Resolved(Passed, "")])) else Ok(st)
        else if Contains(task, "Fail") then
          if kind != "runner_on_failed" then Ok(st)
          else if res.Broken? then Err(res.error)
          else Ok(st.(table := st.table[c := Resolved(Verdict.Failed, FailRemediation(res))]))
        else Ok(st)
      else Ok(st)
  }

  /** The loop over the events from a given state; the first raise ends it. */
  function RunFrom(st: ParserState, es: seq<Event>): Result<ParserState> {
    if es == [] then Ok(st)
    else
      match RunFrom(st, es[..|es| - 1])
      case Err(err) => Err(err)
      case Ok(s) => Step(s, es[|es| - 1])
  }

  function Run(es: seq<Event>): Result<ParserState> {
    RunFrom(Init, es)
  }

  /**
   * The emitting loop: one result per entry of the dict whose status is no
   * longer UNKNOWN, in insertion order.
   */
  function Emit(order: seq<string>, table: map<string, CheckState>): seq<CheckResult> {
    if order == [] then []
    else
      var c := order[|order| - 1];
      Emit(order[..|order| - 1], table)
        + (if c in table && table[c].Resolved? then [CheckResult(c, table[c].verdict, table[c].remediation)] else [])
  }

  const HostConnectivity := CheckResult("Host Connectivity", Verdict.Failed,
    "Could not connect to host. Check IP, SSH access, and key file.")

  function PlaybookExecution(status: string): CheckResult {
    CheckResult("Playbook Execution", Verdict.Failed, "Playbook failed to execute. Status: " + status)
  }

  function ParsingError(err: string): CheckResult {
    CheckResult("Result Parsing Error", Verdict.Failed, "Error parsing results: " + err)
  }

  /**
   * The run-status handling after the emitting loop: the parsed checks stay
   * in front, and at most one FAILED entry is added after them.
   */
  function PostProcess(status: string, parsed: seq<CheckResult>): (r: seq<CheckResult>)
    ensures |parsed| <= |r| <= |parsed| + 1 && r[..|parsed|] == parsed
    ensures |r| == |parsed| + 1 ==> r[|parsed|].verdict == Verdict.Failed
    ensures status == "unreachable" ==> r == parsed + [HostConnectivity]
    ensures status == "failed" && parsed == [] ==> r == [PlaybookExecution("failed")]
    ensures status != "unreachable" && (status != "failed" || parsed != []) ==> r == parsed
  {
    if status == "unreachable" then parsed + [HostConnectivity]
    else if status == "failed" && parsed == [] then [PlaybookExecution(status)]
    else parsed
  }

  /** What parse_ansible_results returns for the events and the final status of a run. */
  function ParseResults(es: seq<Event>, status: string): seq<CheckResult> {
    match Run(es)
    case Err(err) => [ParsingError(err)]
    case Ok(st) => PostProcess(status, Emit(st.order, st.table))
  }

  // ---------------------------------------------------------------------
  // The state invariant and the order of the checks.

  /** The check names named by the check tasks of es, in stream order. */
  function CheckTasks(es: seq<Event>): seq<string> {
    if es == [] then []
    else
      var e := es[|es| - 1];
      CheckTasks(es[..|es| - 1]) + (if e.Event? && IsCheckTask(e.task) then [e.task] else [])
  }

  /** The distinct elements of s in order of first occurrence. */
  function Dedup(s: seq<string>): seq<string> {
    if s == [] then []
    else
      var d := Dedup(s[..|s| - 1]);
      if s[|s| - 1] in d then d else d + [s[|s| - 1]]
  }

  predicate DistinctNames(s: seq<string>) {
    forall i, j :: 0 <= i < j < |s| ==> s[i] != s[j]
  }

  /**
   * The invariant of the loop: the dict keys are exactly the opened checks,
   * each once, the cursor names one of them, and a PASSED entry has an empty
   * remediation.
   */
  ghost predicate Valid(st: ParserState) {
    && DistinctNames(st.order)
    && (forall c :: c in st.table <==> c in st.order)
    && (st.current.Some? ==> st.current.value in st.table)
    && (forall c :: c in st.table && st.table[c].Resolved? && st.table[c].verdict == Passed ==> st.table[c].remediation == "")
  }

  /** Opening a check keeps the invariant. */
  lemma OpenValid(st: ParserState, task: string)
    requires Valid(st)
    ensures var order := if task in st.order then st.order else st.order + [task];
      Valid(ParserState(Some(task), order, st.table[task := Unknown]))
  {
    var order := if task in st.order then st.order else st.order + [task];
    var table := st.table[task := Unknown];
    forall i, j | 0 <= i < j < |order|
      ensures order[i] != order[j]
    {
      if j == |st.order| {
        assert order[i] == st.order[i];
      } else {
        assert order[i] == st.order[i] && order[j] == st.order[j];
      }
    }
    forall c
      ensures c in table <==> c in order
    {
      assert c in order <==> c in st.order || c == task;
    }
  }

  /** Resolving an open check keeps the invariant, a PASSED entry having no remediation. */
  lemma ResolveValid(st: ParserState, c: string, v: Verdict, r: string)
    requires Valid(st) && c in st.table
    requires v == Passed ==> r == ""
    ensures Valid(st.(table := st.table[c := Resolved(v, r)]))
  {
  }

  lemma StepValid(st: ParserState, e: Event)
    requires Valid(st)
    ensures Step(st, e).Ok? ==> Valid(Step(st, e).value)
  {
    if e.Event? {
      var task := e.task;
      if IsCheckTask(task) {
        OpenValid(st, task);
      } else if st.current.Some? && IsResultTask(task) {
        var c := st.current.value;
        if Contains(task, "Pass") {
          ResolveValid(st, c, Passed, "");
        } else if Contains(task, "Fail") && e.kind == "runner_on_failed" && !e.res.Broken? {
          ResolveValid(st, c, Verdict.Failed, FailRemediation(e.res));
        }
      }
    }
  }

  /** One more event: a raise sticks, otherwise the event is applied. */
  lemma RunSnoc(es: seq<Event>, e: Event)
    ensures Run(es + [e]) == if Run(es).Err? then Run(es) else Step(Run(es).value, e)
  {
    var xs := es + [e];
    assert xs[..|xs| - 1] == es;
    assert xs[|xs| - 1] == e;
  }

  lemma {:induction false} DedupDistinct(s: seq<string>)
    ensures DistinctNames(Dedup(s))
    ensures forall x :: x in Dedup(s) <==> x in s
  {
    if s != [] {
      DedupDistinct(s[..|s| - 1]);
      assert s == s[..|s| - 1] + [s[|s| - 1]];
    }
  }

  /**
   * Along any run that has not raised, the state keeps the invariant, and the
   * dict order is the order in which checks were FIRST opened: re-opening a
   * check keeps its original position.
   */
  lemma {:induction false} RunValid(es: seq<Event>)
    ensures Run(es).Ok? ==> Valid(Run(es).value) && Run(es).value.order == Dedup(CheckTasks(es))
  {
    if es != [] {
      var init := es[..|es| - 1];
      var e := es[|es| - 1];
      RunValid(init);
      assert es == init + [e];
      RunSnoc(init, e);
      if Run(init).Ok? {
        var st := Run(init).value;
        StepValid(st, e);
        StepOrder(st, e);
        CheckTasksSnoc(init, e);
        var ct := CheckTasks(es);
        if e.Event? && IsCheckTask(e.task) {
          assert ct[..|ct| - 1] == CheckTasks(init) && ct[|ct| - 1] == e.task;
        } else {
          assert ct == CheckTasks(init) + [] == CheckTasks(init);
        }
      }
    }
  }

  /** A step appends a check task to the order when it is new, and changes the order in no other way. */
  lemma StepOrder(st: ParserState, e: Event)
    ensures Step(st, e).Ok? ==>
      Step(st, e).value.order == if e.Event? && IsCheckTask(e.task) && e.task !in st.order then st.order + [e.task] else st.order
  {
  }

  lemma CheckTasksSnoc(es: seq<Event>, e: Event)
    ensures CheckTasks(es + [e]) == CheckTasks(es) + (if e.Event? && IsCheckTask(e.task) then [e.task] else [])
  {
    var xs := es + [e];
    assert xs[..|xs| - 1] == es;
  }

  // ---------------------------------------------------------------------
  // The emitted results.

  /** y comes after x in s. */
  predicate Before(s: seq<string>, x: string, y: string) {
    exists a, b :: 0 <= a < b < |s| && s[a] == x && s[b] == y
  }

  /** r is the result emitted for a resolved entry of the dict. */
  predicate EmittedFrom(r: CheckResult, order: seq<string>, table: map<string, CheckState>) {
    r.check in order && r.check in table && table[r.check] == Resolved(r.verdict, r.remediation)
  }

  /** Every emitted result is a resolved dict entry, with its verdict and remediation. */
  lemma {:induction false} EmitSound(order: seq<string>, table: map<string, CheckState>)
    ensures forall i :: 0 <= i < |Emit(order, table)| ==> EmittedFrom(Emit(order, table)[i], order, table)
  {
    if order != [] {
      var init := order[..|order| - 1];
      EmitSound(init, table);
      var em0 := Emit(init, table);
      var em := Emit(order, table);
      assert em[..|em0|] == em0;
      forall i | 0 <= i < |em|
        ensures EmittedFrom(em[i], order, table)
      {
        if i < |em0| {
          assert em[i] == em0[i];
          var k :| 0 <= k < |init| && init[k] == em0[i].check;
          assert order[k] == init[k];
        }
      }
    }
  }

  /** Some emitted result is about check c. */
  predicate IsEmitted(c: string, em: seq<CheckResult>) {
    exists i :: 0 <= i < |em| && em[i].check == c
  }

  /** Every resolved dict entry is emitted. */
  lemma {:induction false} EmitComplete(order: seq<string>, table: map<string, CheckState>)
    ensures forall c :: c in order && c in table && table[c].Resolved? ==> IsEmitted(c, Emit(order, table))
  {
    if order != [] {
      var init := order[..|order| - 1];
      var c := order[|order| - 1];
      EmitComplete(init, table);
      var em0 := Emit(init, table);
      var em := Emit(order, table);
      assert em[..|em0|] == em0;
      forall x | x in order && x in table && table[x].Resolved?
        ensures IsEmitted(x, em)
      {
        if x != c {
          assert x in init by {
            var k :| 0 <= k < |order| && order[k] == x;
            assert init[k] == x;
          }
          var i :| 0 <= i < |em0| && em0[i].check == x;
          assert em[i] == em0[i];
        } else {
          assert em[|em0|].check == x;
        }
      }
    }
  }

  /** The emitted results follow the insertion order of the dict. */
  lemma {:induction false} EmitOrdered(order: seq<string>, table: map<string, CheckState>)
    ensures forall i, j :: 0 <= i < j < |Emit(order, table)| ==>
      Before(order, Emit(order, table)[i].check, Emit(order, table)[j].check)
  {
    if order != [] {
      var init := order[..|order| - 1];
      var c := order[|order| - 1];
      EmitOrdered(init, table);
      EmitSound(init, table);
      var em0 := Emit(init, table);
      var em := Emit(order, table);
      assert em[..|em0|] == em0;
      forall i, j | 0 <= i < j < |em|
        ensures Before(order, em[i].check, em[j].check)
      {
        assert em[i] == em0[i];
        if j < |em0| {
          assert em[j] == em0[j];
          var a, b :| 0 <= a < b < |init| && init[a] == em0[i].check && init[b] == em0[j].check;
          assert order[a] == init[a] && order[b] == init[b];
        } else {
          assert em0[i].check in init;
          var a :| 0 <= a < |init| && init[a] == em0[i].check;
          assert order[a] == init[a];
          assert em[j].check == c == order[|order| - 1];
        }
      }
    }
  }

  /**
   * For a run that has not raised, the output starts with the emitted checks
   * and they are exactly the opened checks that were resolved, in first-opened
   * order, each PASSED (with an empty remediation) or FAILED; at most one
   * synthetic FAILED entry follows them.
   */
  lemma ParsedChecksFirst(es: seq<Event>, status: string)
    requires Run(es).Ok?
    ensures var st := Run(es).value;
      var em := Emit(st.order, st.table);
      var out := ParseResults(es, status);
      && st.order == Dedup(CheckTasks(es))
      && |em| <= |out| <= |em| + 1 && out[..|em|] == em
      && (forall i :: 0 <= i < |em| ==> EmittedFrom(em[i], st.order, st.table))
      && (forall i :: 0 <= i < |em| && em[i].verdict == Passed ==> em[i].remediation == "")
      && (forall c :: c in st.order && c in st.table && st.table[c].Resolved? ==> IsEmitted(c, em))
      && (forall i, j :: 0 <= i < j < |em| ==> Before(st.order, em[i].check, em[j].check))
  {
    RunValid(es);
    var st := Run(es).value;
    EmitSound(st.order, st.table);
    EmitComplete(st.order, st.table);
    EmitOrdered(st.order, st.table);
  }

  // ---------------------------------------------------------------------
  // Runs over concatenated streams.

  function Continue(r: Result<ParserState>, es: seq<Event>): Result<ParserState> {
    match r
    case Err(err) => Err(err)
    case Ok(st) => RunFrom(st, es)
  }

  lemma {:induction false} RunFromAppend(st: ParserState, a: seq<Event>, b: seq<Event>)
    ensures RunFrom(st, a + b) == Continue(RunFrom(st, a), b)
  {
    if b == [] {
      assert a + b == a;
    } else {
      var ab := a + b;
      assert ab[..|ab| - 1] == a + b[..|b| - 1];
      assert ab[|ab| - 1] == b[|b| - 1];
      RunFromAppend(st, a, b[..|b| - 1]);
    }
  }

  /** Events other than check tasks leave a state without an open check as it is. */
  lemma {:induction false} RunBeforeOpen(pre: seq<Event>)
    requires forall k :: 0 <= k < |pre| ==> pre[k].Event? && !IsCheckTask(pre[k].task)
    ensures Run(pre) == Ok(Init)
  {
    if pre != [] {
      RunBeforeOpen(pre[..|pre| - 1]);
    }
  }

  /**
   * Result tasks (and any other events) that come before the first check task
   * are ignored: they change nothing in the output.
   */
  lemma IgnoredBeforeOpen(pre: seq<Event>, es: seq<Event>, status: string)
    requires forall k :: 0 <= k < |pre| ==> pre[k].Event? && !IsCheckTask(pre[k].task)
    ensures ParseResults(pre + es, status) == ParseResults(es, status)
  {
    RunBeforeOpen(pre);
    RunFromAppend(Init, pre, es);
  }

  /** A raise ends the run: nothing after it matters. */
  lemma {:induction false} ErrSticks(es: seq<Event>, more: seq<Event>)
    requires Run(es).Err?
    ensures Run(es + more) == Run(es)
  {
    RunFromAppend(Init, es, more);
  }

  /** A resolved entry of the dict is emitted with its verdict and remediation. */
  lemma EmittedEntry(order: seq<string>, table: map<string, CheckState>, c: string)
    requires c in order && c in table && table[c].Resolved?
    ensures CheckResult(c, table[c].verdict, table[c].remediation) in Emit(order, table)
  {
    EmitComplete(order, table);
    EmitSound(order, table);
    var em := Emit(order, table);
    var i :| 0 <= i < |em| && em[i].check == c;
    assert EmittedFrom(em[i], order, table);
  }

  /**
   * A Pass result task on a runner_on_ok event resolves the open check c to
   * PASSED with an empty remediation, whatever it was before.
   */
  lemma PassResultEffect(es: seq<Event>, task: string, res: ResMsg)
    requires Run(es).Ok? && Run(es).value.current.Some?
    requires IsResultTask(task) && Contains(task, "Pass")
    ensures var after := Run(es + [Event("runner_on_ok", task, res)]);
      && after.Ok?
      && CheckResult(Run(es).value.current.value, Passed, "") in Emit(after.value.order, after.value.table)
  {
    var e := Event("runner_on_ok", task, res);
    RunValid(es);
    var xs := es + [e];
    assert xs[..|xs| - 1] == es;
    StepValid(Run(es).value, e);
    var st' := Run(xs).value;
    EmittedEntry(st'.order, st'.table, Run(es).value.current.value);
  }

  /**
   * A Fail result task (that does not also name Pass) on a runner_on_failed
   * event resolves the open check c to FAILED with res.msg, or with
   * 'No remediation provided' when there is none; an unreadable res raises.
   */
  lemma FailResultEffect(es: seq<Event>, task: string, res: ResMsg)
    requires Run(es).Ok? && Run(es).value.current.Some?
    requires IsResultTask(task) && !Contains(task, "Pass") && Contains(task, "Fail")
    ensures var after := Run(es + [Event("runner_on_failed", task, res)]);
      && (res.Broken? ==> after == Err(res.error))
      && (!res.Broken? ==>
            after.Ok?
            && CheckResult(Run(es).value.current.value, Verdict.Failed, FailRemediation(res))
                 in Emit(after.value.order, after.value.table))
  {
    var e := Event("runner_on_failed", task, res);
    var st := Run(es).value;
    var c := st.current.value;
    RunValid(es);
    RunSnoc(es, e);
    assert !IsCheckTask(task);
    if res.Broken? {
      assert Step(st, e) == Err(res.error);
    } else {
      var st' := st.(table := st.table[c := Resolved(Verdict.Failed, FailRemediation(res))]);
      assert Step(st, e) == Ok(st');
      assert c in st'.order;
      EmittedEntry(st'.order, st'.table, c);
    }
  }

  /**
   * Every other result event changes nothing: a Pass task on any event but
   * runner_on_ok (even when it also names Fail), a Fail task on any event but
   * runner_on_failed, and a result task naming neither. Result tasks seen
   * while no check is open change nothing either.
   */
  lemma IgnoredResultEvent(es: seq<Event>, kind: string, task: string, res: ResMsg)
    requires Run(es).Ok? && IsResultTask(task)
    requires Run(es).value.current.None?
      || (Contains(task, "Pass") && kind != "runner_on_ok")
      || (!Contains(task, "Pass") && !(Contains(task, "Fail") && kind == "runner_on_failed"))
    ensures Run(es + [Event(kind, task, res)]) == Run(es)
  {
    var xs := es + [Event(kind, task, res)];
    assert xs[..|xs| - 1] == es;
  }

  /**
   * Re-opening a check that is already in the dict resets it to UNKNOWN, so it
   * is no longer emitted, and leaves it at its original position.
   */
  lemma ReopenDrops(es: seq<Event>, kind: string, task: string, res: ResMsg)
    requires Run(es).Ok? && IsCheckTask(task) && task in Run(es).value.order
    ensures var after := Run(es + [Event(kind, task, res)]);
      && after.Ok?
      && after.value.order == Run(es).value.order
      && after.value.current == Some(task)
      && (forall c :: c in after.value.order ==> c in after.value.table)
      && (forall r :: r in Emit(after.value.order, after.value.table) ==> r.check != task)
  {
    var e := Event(kind, task, res);
    RunValid(es);
    var xs := es + [e];
    assert xs[..|xs| - 1] == es;
    StepValid(Run(es).value, e);
    var st' := Run(xs).value;
    EmitSound(st'.order, st'.table);
  }

  // ---------------------------------------------------------------------
  // The imperative parser.

  /** parse_ansible_results over the events and the final status of a run. */
  method ParseAnsibleResults(events: seq<Event>, status: string) returns (results: seq<CheckResult>)
    ensures results == ParseResults(events, status)
  {
    var current: Option<string> := None;
    var order: seq<string> := [];
    var table: map<string, CheckState> := map[];
    for i := 0 to |events|
      invariant Run(events[..i]) == Ok(ParserState(current, order, table))
    {
      assert events[..i + 1][..i] == events[..i];
      var e := events[i];
      if e.BrokenEvent? {
        ErrSticks(events[..i + 1], events[i + 1..]);
        assert events[..i + 1] + events[i + 1..] == events;
        return [ParsingError(e.error)];
      }
      var task := e.task;
      if IsCheckTask(task) {
        current := Some(task);
        if task !in order {
          order := order + [task];
        }
        table := table[task := Unknown];
      } else if current.Some? && IsResultTask(task) {
        if Contains(task, "Pass") {
          if e.kind == "runner_on_ok" {
            table := table[current.value := Resolved(Passed, "")];
          }
        } else if Contains(task, "Fail") {
          if e.kind == "runner_on_failed" {
            if e.res.Broken? {
              ErrSticks(events[..i + 1], events[i + 1..]);
              assert events[..i + 1] + events[i + 1..] == events;
              return [ParsingError(e.res.error)];
            }
            var remediation := if e.res.Present? then e.res.msg else NoRemediation;
            table := table[current.value := Resolved(Verdict.Failed, remediation)];
          }
        }
      }
    }
    assert events[..|events|] == events;
    RunValid(events);
    results := [];
    for k := 0 to |order|
      invariant results == Emit(order[..k], table)
    {
      assert order[..k + 1][..k] == order[..k];
      var c := order[k];
      if table[c].Resolved? {
        results := results + [CheckResult(c, table[c].verdict, table[c].remediation)];
      }
    }
    assert order[..|order|] == order;
    if status == "unreachable" {
      results := results + [HostConnectivity];
    } else if status == "failed" && results == [] {
      results := [PlaybookExecution(status)];
    }
  }
}
