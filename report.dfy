/**
 * The figures of pdf_generator.py that do not depend on the PDF library: the
 * truncation of long texts, the passed and failed counts, the risk level of
 * the executive summary and the remediation column of the results table.
 */
module Report {
  import opened Wrappers
  import opened Text
  import Audit

  /** truncate_text: empty for no text, the text itself when short enough, else cut with "...". */
  function TruncateText(text: Option<string>, maxLength: int): string {
    if text.None? || text.value == "" then ""
    else if |text.value| <= maxLength then text.value
    else PrefixUpTo(text.value, maxLength - 3) + "..."
  }

  /**
   * No text gives ""; a text of at most maxLength characters is kept; a
   * longer one is cut to its first maxLength - 3 characters followed by
   * "...", exactly maxLength long when maxLength >= 3; truncating again
   * changes nothing.
   */
  lemma TruncateTextSpec(text: Option<string>, maxLength: int)
    ensures var r := TruncateText(text, maxLength);
      && (text.None? || text.value == "" ==> r == "")
      && (text.Some? && |text.value| <= maxLength ==> r == text.value)
      && (text.Some? && |text.value| > maxLength >= 3 ==>
            |r| == maxLength && r == text.value[..maxLength - 3] + "...")
      && (maxLength >= 3 ==> |r| <= maxLength && TruncateText(Some(r), maxLength) == r)
  {
  }

  /** One entry of target.results as the report reads it: each key may be missing. */
  datatype ResultRow = ResultRow(status: Option<string>, check: Option<string>, remediation: Option<string>)

  /** The status string of a verdict. */
  function VerdictName(v: Audit.Verdict): string {
    if v == Audit.Passed then "PASSED" else "FAILED"
  }

  /** The row of a check result produced by the audit. */
  function RowOf(r: Audit.CheckResult): ResultRow {
    ResultRow(Some(VerdictName(r.verdict)), Some(r.check), Some(r.remediation))
  }

  function RowsOf(results: seq<Audit.CheckResult>): (rows: seq<ResultRow>)
    ensures |rows| == |results|
  {
    if results == [] then [] else RowsOf(results[..|results| - 1]) + [RowOf(results[|results| - 1])]
  }

  /** 'PASSED' in r.get('status', ''). */
  predicate IsPassedRow(r: ResultRow) {
    Contains(r.status.GetOr(""), "PASSED")
  }

  /** passed_checks: the rows whose status contains PASSED. */
  function PassedCount(rows: seq<ResultRow>): (n: nat)
    ensures n <= |rows|
  {
    if rows == [] then 0 else PassedCount(rows[..|rows| - 1]) + (if IsPassedRow(rows[|rows| - 1]) then 1 else 0)
  }

  /** The rows whose status does not contain PASSED. */
  function NotPassedCount(rows: seq<ResultRow>): nat {
    if rows == [] then 0 else NotPassedCount(rows[..|rows| - 1]) + (if !IsPassedRow(rows[|rows| - 1]) then 1 else 0)
  }

  /** The three figures of the summary table: total, passed, failed. */
  datatype Summary = Summary(total: nat, passed: nat, failed: int)

  function Summarize(rows: seq<ResultRow>): Summary {
    var passed := PassedCount(rows);
    Summary(|rows|, passed, |rows| - passed)
  }

  /**
   * passed + failed == total, and failed counts exactly the rows whose status
   * does not contain PASSED, so it is never negative.
   */
  lemma {:induction false} SummarizeSpec(rows: seq<ResultRow>)
    ensures var s := Summarize(rows);
      && s.passed + s.failed == s.total
      && s.failed == NotPassedCount(rows) >= 0
  {
    if rows != [] {
      SummarizeSpec(rows[..|rows| - 1]);
    }
  }

  /** A string shorter than sub never contains it. */
  lemma {:induction false} ShortNotContains(s: string, sub: string)
    requires |s| < |sub|
    ensures !Contains(s, sub)
  {
    if s != [] {
      ShortNotContains(s[1..], sub);
    }
  }

  /** A PASSED result counts as passed, a FAILED one does not. */
  lemma VerdictNameIsPassed(v: Audit.Verdict)
    ensures Contains(VerdictName(v), "PASSED") <==> v == Audit.Passed
  {
    var name := VerdictName(v);
    if v == Audit.Passed {
      assert StartsWith(name, "PASSED") by { assert name[..6] == "PASSED"; }
    } else {
      assert !StartsWith(name, "PASSED") by { assert name[0] == 'F'; }
      ShortNotContains(name[1..], "PASSED");
    }
  }

  /**
   * On the results the audit produces, the report counts as passed exactly
   * the PASSED verdicts, so its figures agree with get_audit_results.
   */
  lemma {:induction false} ReportCountsAgree(results: seq<Audit.CheckResult>)
    ensures PassedCount(RowsOf(results)) == Audit.CountVerdict(results, Audit.Passed)
    ensures Summarize(RowsOf(results)).failed == Audit.CountVerdict(results, Audit.Verdict.Failed)
  {
    if results != [] {
      var init := results[..|results| - 1];
      ReportCountsAgree(init);
      var rows := RowsOf(results);
      assert rows[..|rows| - 1] == RowsOf(init);
      VerdictNameIsPassed(results[|results| - 1].verdict);
    }
    Audit.VerdictCountsSum(results);
  }

  /** The risk of a system with failed controls. */
  datatype Risk = High | Medium | Low

  /** A rank for comparing risks: HIGH above MEDIUM above LOW. */
  function Rank(r: Risk): nat {
    match r
    case High => 2
    case Medium => 1
    case Low => 0
  }

  /**
   * The risk assessment: only when some control failed; HIGH under 70 %
   * compliance, MEDIUM under 85 %, LOW otherwise, the percentages compared by
   * cross-multiplication.
   */
  function RiskLevel(passed: nat, total: nat): Option<Risk> {
    if total - passed <= 0 then None
    else if passed * 100 < 70 * total then Some(High)
    else if passed * 100 < 85 * total then Some(Medium)
    else Some(Low)
  }

  /**
   * For a consistent summary (passed <= total): there is a risk level exactly
   * when some control failed; HIGH exactly below 70 %, LOW exactly at 85 % or
   * more.
   */
  lemma RiskLevelSpec(passed: nat, total: nat)
    requires passed <= total
    ensures RiskLevel(passed, total).Some? <==> passed < total
    ensures RiskLevel(passed, total) == Some(High) <==> passed < total && passed * 100 < 70 * total
    ensures RiskLevel(passed, total) == Some(Low) <==> passed < total && passed * 100 >= 85 * total
    ensures RiskLevel(passed, total).Some? ==> total > 0
  {
  }

  /** More passed controls out of the same total never raise the risk. */
  lemma RiskMonotone(p1: nat, p2: nat, total: nat)
    requires p1 <= p2 < total
    ensures RiskLevel(p1, total).Some? && RiskLevel(p2, total).Some?
    ensures Rank(RiskLevel(p2, total).value) <= Rank(RiskLevel(p1, total).value)
  {
    assert p1 * 100 <= p2 * 100;
  }

  /** The text of the remediation column before wrapping. */
  function RemediationCell(r: ResultRow): string {
    if Contains(r.status.GetOr("UNKNOWN"), "PASSED") then "Control is compliant"
    else r.remediation.GetOr("No remediation provided")
  }

  /**
   * A passed row always reads "Control is compliant"; any other row shows its
   * remediation, or "No remediation provided" when it has none.
   */
  lemma RemediationCellSpec(r: ResultRow)
    ensures IsPassedRow(r) ==> RemediationCell(r) == "Control is compliant"
    ensures !IsPassedRow(r) ==> RemediationCell(r) == r.remediation.GetOr("No remediation provided")
  {
    if r.status.None? {
      var u: string := "UNKNOWN";
      assert !StartsWith(u, "PASSED") by { assert u[0] == 'U'; }
      assert !StartsWith(u[1..], "PASSED") by { assert u[1..][0] == 'N'; }
      ShortNotContains(u[1..][1..], "PASSED");
      ShortNotContains("", "PASSED");
    }
  }

  /** For an audit result, the column shows the remediation exactly when the check failed. */
  lemma RemediationOfResult(c: Audit.CheckResult)
    ensures RemediationCell(RowOf(c)) == if c.verdict == Audit.Passed then "Control is compliant" else c.remediation
  {
    VerdictNameIsPassed(c.verdict);
  }
}
