/**
 * Audit targets and check results (api.py, AuditTarget and
 * parse_targets_file): the value types shared by the whole core, the mutable
 * target record, and the parser that turns the lines of a targets file into
 * targets.
 */
module Audit {
  import opened Wrappers
  import opened Text

  /** The verdict of one CIS check: the strings 'PASSED' and 'FAILED'. */
  datatype Verdict = Passed | Failed

  /** One entry of a target's results list: {'check', 'status', 'remediation'}. */
  datatype CheckResult = CheckResult(check: string, verdict: Verdict, remediation: string)

  /** The life-cycle of a target: 'pending' -> 'running' -> 'completed' | 'failed'. */
  datatype Status = Pending | Running | Completed | Failed

  predicate IsTerminal(s: Status) {
    s == Completed || s == Status.Failed
  }

  /** The number of results with the given verdict. */
  function CountVerdict(results: seq<CheckResult>, v: Verdict): (n: nat)
    ensures n <= |results|
  {
    if results == [] then 0
    else CountVerdict(results[..|results| - 1], v) + (if results[|results| - 1].verdict == v then 1 else 0)
  }

  /** Every result is PASSED or FAILED, so the two counts add up to the total. */
  lemma {:induction false} VerdictCountsSum(results: seq<CheckResult>)
    ensures CountVerdict(results, Passed) + CountVerdict(results, Verdict.Failed) == |results|
  {
    if results != [] {
      VerdictCountsSum(results[..|results| - 1]);
    }
  }

  /** The count of a concatenation is the sum of the counts. */
  lemma {:induction false} CountVerdictAppend(a: seq<CheckResult>, b: seq<CheckResult>, v: Verdict)
    ensures CountVerdict(a + b, v) == CountVerdict(a, v) + CountVerdict(b, v)
  {
    if b == [] {
      assert a + b == a;
    } else {
      var ab := a + b;
      assert ab[..|ab| - 1] == a + b[..|b| - 1];
      assert ab[|ab| - 1] == b[|b| - 1];
      CountVerdictAppend(a, b[..|b| - 1], v);
    }
  }

  /** The level a new target keeps: windows (in any case) forces "default". */
  function TargetLevel(os: string, level: string): string {
    if Lower(os) == "windows" then "default" else level
  }

  /** A host to audit and the state of its audit run. */
  class AuditTarget {
    const ip: string
    const username: string
    const keyPath: string
    const os: string
    const level: string
    const auditId: string
    var results: seq<CheckResult>
    var status: Status
    var startTime: Option<int>
    var endTime: Option<int>
    var errorMessage: Option<string>

    /** The state of a target nobody has run yet. */
    predicate IsUnstarted()
      reads this
    {
      status == Pending && results == [] && startTime == None && endTime == None && errorMessage == None
    }

    /**
     * AuditTarget.__init__; the audit id (a fresh uuid4 in the source) is
     * passed in.
     */
    constructor (ip: string, username: string, keyPath: string, os: string, level: string, auditId: string)
      ensures this.ip == ip && this.username == username && this.keyPath == keyPath
      ensures this.os == Lower(os) && HasNoUpper(this.os)
      ensures this.level == TargetLevel(os, level)
      ensures this.os == "windows" ==> this.level == "default"
      ensures this.auditId == auditId
      ensures IsUnstarted()
    {
      LowerIsLower(os);
      this.ip := ip;
      this.username := username;
      this.keyPath := keyPath;
      this.os := Lower(os);
      this.level := TargetLevel(os, level);
      this.auditId := auditId;
      results := [];
      status := Pending;
      startTime := None;
      endTime := None;
      errorMessage := None;
    }
  }

  /** The fields of one accepted line of a targets file, as written there. */
  datatype TargetRecord = TargetRecord(ip: string, username: string, keyPath: string, os: string, level: string)

  /** The level used when a line gives none. */
  function DefaultLevel(os: string): string {
    if Lower(os) != "windows" then "level1" else "default"
  }

  lemma DefaultLevelIsWord(os: string)
    ensures IsWord(DefaultLevel(os))
  {
    var d := DefaultLevel(os);
    forall i | 0 <= i < |d|
      ensures !IsSpace(d[i])
    {
      assert 'a' <= d[i] <= 'z' || '0' <= d[i] <= '9';
    }
  }

  /**
   * One line of a targets file: "IP USERNAME KEY_PATH OS [LEVEL]". Blank
   * lines, comments and lines with fewer than four fields give nothing.
   */
  function ParseLine(line: string): Option<TargetRecord>
  {
    var stripped := Strip(line);
    if stripped == [] || stripped[0] == '#' then None
    else
      var parts := Words(stripped);
      if |parts| < 4 then None
      else
        var level := if |parts| > 4 then parts[4] else DefaultLevel(parts[3]);
        Some(TargetRecord(parts[0], parts[1], parts[2], parts[3], level))
  }

  /** A line the parser skips silently: blank, or a comment after the indentation. */
  predicate IsBlankOrComment(line: string) {
    var stripped := Strip(line);
    stripped == [] || stripped[0] == '#'
  }

  /**
   * A line is accepted exactly when it is not blank or a comment and has at
   * least four whitespace-separated fields.
   */
  lemma ParseLineAccepts(line: string)
    ensures AllSpace(line) ==> ParseLine(line).None?
    ensures ParseLine(line).Some? <==> !IsBlankOrComment(line) && |Words(line)| >= 4
  {
    var stripped := Strip(line);
    StripSpec(line);
    WordsOfStrip(line);
    assert Words(stripped) == Words(line);
    if stripped == [] || stripped[0] == '#' {
      assert ParseLine(line).None?;
    } else {
      assert ParseLine(line).Some? <==> |Words(stripped)| >= 4;
    }
  }

  /**
   * An accepted line's record holds its first four fields, the fifth as level
   * when present and otherwise the default level of the OS, and every field
   * is non-empty and free of whitespace.
   */
  lemma ParseLineFields(line: string)
    requires ParseLine(line).Some?
    ensures var parts, rec := Words(line), ParseLine(line).value;
      && |parts| >= 4
      && rec.ip == parts[0] && rec.username == parts[1] && rec.keyPath == parts[2] && rec.os == parts[3]
      && rec.level == (if |parts| > 4 then parts[4] else DefaultLevel(parts[3]))
      && IsWord(rec.ip) && IsWord(rec.username) && IsWord(rec.keyPath) && IsWord(rec.os) && IsWord(rec.level)
  {
    var stripped := Strip(line);
    WordsOfStrip(line);
    var parts := Words(stripped);
    assert parts == Words(line);
    WordsAreWords(line);
    assert |parts| >= 4;
    assert ParseLine(line).value == TargetRecord(parts[0], parts[1], parts[2], parts[3],
      if |parts| > 4 then parts[4] else DefaultLevel(parts[3]));
    assert IsWord(parts[0]) && IsWord(parts[1]) && IsWord(parts[2]) && IsWord(parts[3]);
    if |parts| > 4 {
      assert IsWord(parts[4]);
    } else {
      DefaultLevelIsWord(parts[3]);
    }
  }

  /** The present values of a sequence of options, in order. */
  function Somes<T>(s: seq<Option<T>>): (r: seq<T>)
    ensures |r| <= |s|
  {
    if s == [] then []
    else Somes(s[..|s| - 1]) + (if s[|s| - 1].Some? then [s[|s| - 1].value] else [])
  }

  lemma {:induction false} SomesAppend<T>(a: seq<Option<T>>, b: seq<Option<T>>)
    ensures Somes(a + b) == Somes(a) + Somes(b)
  {
    if b == [] {
      assert a + b == a;
    } else {
      var ab := a + b;
      assert ab[..|ab| - 1] == a + b[..|b| - 1];
      assert ab[|ab| - 1] == b[|b| - 1];
      SomesAppend(a, b[..|b| - 1]);
    }
  }

  lemma {:induction false} SomesMembers<T>(s: seq<Option<T>>)
    ensures forall x :: x in Somes(s) ==> exists i :: 0 <= i < |s| && s[i] == Some(x)
  {
    if s != [] {
      var init := s[..|s| - 1];
      SomesMembers(init);
      forall x | x in Somes(s)
        ensures exists i :: 0 <= i < |s| && s[i] == Some(x)
      {
        if x in Somes(init) {
          var i :| 0 <= i < |init| && init[i] == Some(x);
          assert s[i] == init[i];
        } else {
          assert s[|s| - 1] == Some(x);
        }
      }
    }
  }

  /** What ParseLine makes of each line of a file. */
  function ParsedLines(lines: seq<string>): (ps: seq<Option<TargetRecord>>)
    ensures |ps| == |lines|
    ensures forall i :: 0 <= i < |lines| ==> ps[i] == ParseLine(lines[i])
  {
    seq(|lines|, i requires 0 <= i < |lines| => ParseLine(lines[i]))
  }

  /** The records of a whole targets file, in file order. */
  function TargetRecords(lines: seq<string>): seq<TargetRecord> {
    Somes(ParsedLines(lines))
  }

  /** Each line contributes independently, and in file order. */
  lemma TargetRecordsAppend(a: seq<string>, b: seq<string>)
    ensures TargetRecords(a + b) == TargetRecords(a) + TargetRecords(b)
  {
    var l, r := ParsedLines(a + b), ParsedLines(a) + ParsedLines(b);
    forall i | 0 <= i < |l|
      ensures l[i] == r[i]
    {
      if i < |a| {
        assert (a + b)[i] == a[i];
      } else {
        assert (a + b)[i] == b[i - |a|];
      }
    }
    assert l == r;
    SomesAppend(ParsedLines(a), ParsedLines(b));
  }

  /** A single line gives exactly one record when accepted, none otherwise. */
  lemma TargetRecordsOfLine(line: string)
    ensures ParseLine(line).Some? ==> TargetRecords([line]) == [ParseLine(line).value]
    ensures ParseLine(line).None? ==> TargetRecords([line]) == []
  {
    var ps := ParsedLines([line]);
    assert ps[..0] == [];
  }

  /** There are never more targets than lines, and each comes from some line. */
  lemma TargetRecordsBound(lines: seq<string>)
    ensures |TargetRecords(lines)| <= |lines|
    ensures forall r :: r in TargetRecords(lines) ==> exists i :: 0 <= i < |lines| && ParseLine(lines[i]) == Some(r)
  {
    SomesMembers(ParsedLines(lines));
  }

  lemma NextLine(lines: seq<string>, i: nat)
    requires i < |lines|
    ensures |TargetRecords(lines[..i])| <= i
    ensures TargetRecords(lines[..i + 1]) == TargetRecords(lines[..i]) + OptionToSeq(ParseLine(lines[i]))
  {
    TargetRecordsBound(lines[..i]);
    assert lines[..i + 1] == lines[..i] + [lines[i]];
    TargetRecordsAppend(lines[..i], [lines[i]]);
    TargetRecordsOfLine(lines[i]);
  }

  function OptionToSeq<T>(o: Option<T>): seq<T> {
    match o
    case None => []
    case Some(v) => [v]
  }

  /** A target built from a record with the given id and not yet run. */
  predicate BuiltFrom(t: AuditTarget, rec: TargetRecord, id: string)
    reads t
  {
    && t.ip == rec.ip && t.username == rec.username && t.keyPath == rec.keyPath
    && t.os == Lower(rec.os) && t.level == TargetLevel(rec.os, rec.level)
    && t.auditId == id && t.IsUnstarted()
  }

  /**
   * The body of the loop of parse_targets_file: a new target at the end of
   * the list when the line was accepted.
   */
  method AddTarget(targets: seq<AuditTarget>, ghost recs: seq<TargetRecord>, parsed: Option<TargetRecord>, ids: seq<string>)
    returns (r: seq<AuditTarget>)
    requires |targets| == |recs| < |ids|
    requires AllBuiltFrom(targets, recs, ids)
    requires Distinct(targets)
    ensures |r| == |recs + OptionToSeq(parsed)|
    ensures r[..|targets|] == targets
    ensures forall k :: |targets| <= k < |r| ==> fresh(r[k])
    ensures AllBuiltFrom(r, recs + OptionToSeq(parsed), ids)
    ensures Distinct(r)
  {
    r := targets;
    if parsed.Some? {
      var rec := parsed.value;
      var t := new AuditTarget(rec.ip, rec.username, rec.keyPath, rec.os, rec.level, ids[|targets|]);
      r := targets + [t];
      forall k | 0 <= k < |r|
        ensures BuiltFrom(r[k], (recs + [rec])[k], ids[k])
      {
        if k < |targets| {
          assert r[k] == targets[k] && (recs + [rec])[k] == recs[k];
        }
      }
      forall j, k | 0 <= j < k < |r|
        ensures r[j] != r[k]
      {
        assert r[j] == targets[j];
        if k < |targets| {
          assert r[k] == targets[k];
        }
      }
    }
  }

  /** All targets in ts are distinct objects. */
  predicate Distinct(ts: seq<AuditTarget>) {
    forall j, k :: 0 <= j < k < |ts| ==> ts[j] != ts[k]
  }

  /** ts[k] was built from recs[k] with ids[k], for every k. */
  predicate AllBuiltFrom(ts: seq<AuditTarget>, recs: seq<TargetRecord>, ids: seq<string>)
    requires |ts| == |recs| <= |ids|
    reads set t | t in ts
  {
    forall k :: 0 <= k < |ts| ==> BuiltFrom(ts[k], recs[k], ids[k])
  }

  /**
   * parse_targets_file: a missing file is an error; otherwise one new target
   * per accepted line, in file order, the k-th taking the k-th id.
   */
  method ParseTargetsFile(file: Option<seq<string>>, path: string, ids: seq<string>)
    returns (r: Result<seq<AuditTarget>>)
    requires file.Some? ==> |ids| >= |file.value|
    ensures file.None? ==> r == Err("Targets file not found: " + path)
    ensures file.Some? ==> r.Ok?
    ensures r.Ok? ==>
      && |r.value| == |TargetRecords(file.value)| <= |file.value|
      && (forall k :: 0 <= k < |r.value| ==> fresh(r.value[k]))
      && AllBuiltFrom(r.value, TargetRecords(file.value), ids)
      && Distinct(r.value)
  {
    if file.None? {
      return Err("Targets file not found: " + path);
    }
    var targets := TargetsOfLines(file.value, ids);
    return Ok(targets);
  }

  /** The loop of parse_targets_file over the lines of an existing file. */
  method TargetsOfLines(lines: seq<string>, ids: seq<string>) returns (targets: seq<AuditTarget>)
    requires |ids| >= |lines|
    ensures |targets| == |TargetRecords(lines)| <= |lines|
    ensures forall k :: 0 <= k < |targets| ==> fresh(targets[k])
    ensures AllBuiltFrom(targets, TargetRecords(lines), ids)
    ensures Distinct(targets)
  {
    targets := [];
    ghost var recs: seq<TargetRecord> := [];
    for i := 0 to |lines|
      invariant recs == TargetRecords(lines[..i])
      invariant |targets| == |recs| <= i
      invariant forall k :: 0 <= k < |targets| ==> fresh(targets[k])
      invariant AllBuiltFrom(targets, recs, ids)
      invariant Distinct(targets)
    {
      var parsed := ParseLine(lines[i]);
      NextLine(lines, i);
      targets := AddTarget(targets, recs, parsed, ids);
      recs := recs + OptionToSeq(parsed);
    }
    assert lines[..|lines|] == lines;
  }
}
