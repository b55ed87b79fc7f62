/**
 * The request-side logic of web_api.py: the upload filter, the normalisation
 * and validation of a single-audit request, the line partition of the
 * upload-test endpoint, and the in-memory table of scheduled audits with its
 * create, delete and scheduler operations.
 */
module WebApi {
  import opened Wrappers
  import opened Text
  import Audit

  // ---------------------------------------------------------------------
  // allowed_file

  /** The text after the last '.', or None when there is no '.'. */
  function Extension(name: string): Option<string> {
    if name == [] then None
    else if name[|name| - 1] == '.' then Some([])
    else
      match Extension(name[..|name| - 1])
      case None => None
      case Some(e) => Some(e + [name[|name| - 1]])
  }

  /** name[i] is the last '.' of name. */
  predicate LastDotAt(name: string, i: int) {
    0 <= i < |name| && name[i] == '.' && '.' !in name[i + 1..]
  }

  /**
   * There is an extension exactly when the name holds a '.', and then it is
   * what follows the last one.
   */
  lemma {:induction false} ExtensionSpec(name: string)
    ensures Extension(name).None? <==> '.' !in name
    ensures Extension(name).Some? ==>
      var e := Extension(name).value;
      |e| < |name| && LastDotAt(name, |name| - |e| - 1) && name[|name| - |e|..] == e
  {
    if name != [] {
      var init := name[..|name| - 1];
      var c := name[|name| - 1];
      assert name == init + [c];
      ExtensionSpec(init);
      if c == '.' {
        assert name[|name|..] == [];
      } else if Extension(init).Some? {
        ExtensionSnoc(init, c);
      } else {
        assert '.' !in init;
      }
    }
  }

  /** A character other than '.' extends the extension of a name that has one. */
  lemma ExtensionSnoc(init: string, c: char)
    requires c != '.' && Extension(init).Some?
    requires var e := Extension(init).value;
      |e| < |init| && LastDotAt(init, |init| - |e| - 1) && init[|init| - |e|..] == e
    ensures var name, e := init + [c], Extension(init).value + [c];
      Extension(name) == Some(e) && |e| < |name| && LastDotAt(name, |name| - |e| - 1) && name[|name| - |e|..] == e
  {
    var name := init + [c];
    assert name[..|name| - 1] == init;
    var e := Extension(init).value;
    var i := |init| - |e| - 1;
    assert name[i] == init[i];
    assert name[i + 1..] == init[i + 1..] + [c];
  }

  /** Only one position can hold the last '.'. */
  lemma LastDotUnique(name: string, i: int, j: int)
    requires LastDotAt(name, i) && LastDotAt(name, j)
    ensures i == j
  {
  }

  const AllowedExtensions: set<string> := {"txt"}

  /** allowed_file: the name has a '.' and its last extension, lowercased, is allowed. */
  predicate AllowedFile(filename: string) {
    var ext := Extension(filename);
    ext.Some? && Lower(ext.value) in AllowedExtensions
  }

  /** An allowed file has its last '.' right before an extension that lowercases to "txt". */
  lemma AllowedFileDot(filename: string)
    requires AllowedFile(filename)
    ensures var i := |filename| - |Extension(filename).value| - 1;
      LastDotAt(filename, i) && Lower(filename[i + 1..]) == "txt"
  {
    ExtensionSpec(filename);
    var e := Extension(filename).value;
    assert filename[|filename| - |e|..] == e;
  }

  /** A last '.' followed by an extension that lowercases to "txt" makes the file allowed. */
  lemma DotAllowedFile(filename: string, i: int)
    requires LastDotAt(filename, i) && Lower(filename[i + 1..]) == "txt"
    ensures AllowedFile(filename)
  {
    ExtensionSpec(filename);
    assert '.' in filename by { assert filename[i] == '.'; }
    var e := Extension(filename).value;
    LastDotUnique(filename, i, |filename| - |e| - 1);
    assert filename[i + 1..] == e;
  }

  /**
   * A file is allowed exactly when it has a last '.' and the text after it,
   * lowercased, is "txt".
   */
  lemma AllowedFileSpec(filename: string)
    ensures AllowedFile(filename) <==>
      exists i :: LastDotAt(filename, i) && Lower(filename[i + 1..]) == "txt"
  {
    if AllowedFile(filename) {
      AllowedFileDot(filename);
      var i := |filename| - |Extension(filename).value| - 1;
      assert LastDotAt(filename, i) && Lower(filename[i + 1..]) == "txt";
    }
    if exists i :: LastDotAt(filename, i) && Lower(filename[i + 1..]) == "txt" {
      var i :| LastDotAt(filename, i) && Lower(filename[i + 1..]) == "txt";
      DotAllowedFile(filename, i);
    }
  }

  // ---------------------------------------------------------------------
  // audit_single: validation and normalisation of the request

  /** The OS of a request: lowercased, with "linux" standing for "ubuntu". */
  function NormalizeOs(os: string): string {
    var lowered := Lower(os);
    if lowered == "linux" then "ubuntu" else lowered
  }

  /**
   * The normalised OS has no upper-case letter and is never "linux"; it is the
   * lowercased OS unless that is "linux"; normalising twice changes nothing.
   */
  lemma NormalizeOsSpec(os: string)
    ensures var r := NormalizeOs(os);
      && HasNoUpper(r) && r != "linux"
      && (Lower(os) == "linux" ==> r == "ubuntu")
      && (Lower(os) != "linux" ==> r == Lower(os))
      && NormalizeOs(r) == r
  {
    LowerIsLower(os);
    var r := NormalizeOs(os);
    if Lower(os) == "linux" {
      assert Lower("ubuntu") == "ubuntu";
    }
  }

  /** The level of a request: the UI names of the two levels map to the playbook names; "L1" when absent. */
  function NormalizeLevel(level: Option<string>): string {
    var l := level.GetOr("L1");
    if l == "Level 1" then "level1"
    else if l == "Level 2" then "level2"
    else if l == "L1" then "level1"
    else if l == "L2" then "level2"
    else l
  }

  /**
   * "Level 1", "L1" and an absent level give "level1"; "Level 2" and "L2"
   * give "level2"; every other level is kept; normalising twice changes nothing.
   */
  lemma NormalizeLevelSpec(level: Option<string>)
    ensures var r := NormalizeLevel(level);
      && (level.None? ==> r == "level1")
      && (level.Some? && level.value in {"Level 1", "L1"} ==> r == "level1")
      && (level.Some? && level.value in {"Level 2", "L2"} ==> r == "level2")
      && (level.Some? && level.value !in {"Level 1", "L1", "Level 2", "L2"} ==> r == level.value)
      && NormalizeLevel(Some(r)) == r
  {
  }

  /** The fields a single-audit request must carry, in the order they are reported. */
  const RequiredFields: seq<string> := ["ip", "username", "key", "os"]

  /** The fields of `fields` absent from the request, in the order of `fields`. */
  function MissingFrom(fields: seq<string>, data: map<string, string>): (r: seq<string>)
    ensures |r| <= |fields|
  {
    if fields == [] then []
    else
      var last := fields[|fields| - 1];
      MissingFrom(fields[..|fields| - 1], data) + (if last !in data then [last] else [])
  }

  /** A field is reported exactly when it is one of `fields` and absent. */
  lemma {:induction false} MissingFromMembers(fields: seq<string>, data: map<string, string>)
    ensures forall f :: f in MissingFrom(fields, data) <==> f in fields && f !in data
  {
    if fields != [] {
      var init := fields[..|fields| - 1];
      MissingFromMembers(init, data);
      assert fields == init + [fields[|fields| - 1]];
    }
  }

  function MissingFields(data: map<string, string>): seq<string> {
    MissingFrom(RequiredFields, data)
  }

  /**
   * The missing fields are exactly the absent required ones, in the order
   * ip, username, key, os.
   */
  lemma MissingFieldsSpec(data: map<string, string>)
    ensures MissingFields(data) ==
      (if "ip" !in data then ["ip"] else []) + (if "username" !in data then ["username"] else [])
      + (if "key" !in data then ["key"] else []) + (if "os" !in data then ["os"] else [])
    ensures forall f :: f in MissingFields(data) <==> f in RequiredFields && f !in data
    ensures MissingFields(data) == [] <==> forall f :: f in RequiredFields ==> f in data
  {
    MissingFromMembers(RequiredFields, data);
    var fs := RequiredFields;
    var f1, f2, f3 := fs[..1], fs[..2], fs[..3];
    assert f1[..0] == [];
    assert f2[..1] == f1 && f3[..2] == f2 && fs[..3] == f3;
    assert MissingFrom(f1, data) == (if "ip" !in data then ["ip"] else []);
    assert MissingFrom(f2, data) == MissingFrom(f1, data) + (if "username" !in data then ["username"] else []);
    assert MissingFrom(f3, data) == MissingFrom(f2, data) + (if "key" !in data then ["key"] else []);
    assert MissingFrom(fs, data) == MissingFrom(f3, data) + (if "os" !in data then ["os"] else []);
  }

  /**
   * The validation and normalisation of audit_single: no data (or an empty
   * object) and missing fields are errors; otherwise the target's fields, with
   * the OS and level normalised.
   */
  function AuditRequest(data: Option<map<string, string>>): (r: Result<Audit.TargetRecord>) {
    if data.None? || data.value == map[] then Err("No JSON data provided")
    else
      var d := data.value;
      var missing := MissingFields(d);
      MissingFieldsSpec(d);
      if missing != [] then Err("Missing required fields: " + Join(missing, ", "))
      else
        var level := if "level" in d then Some(d["level"]) else None;
        Ok(Audit.TargetRecord(d["ip"], d["username"], d["key"], NormalizeOs(d["os"]), NormalizeLevel(level)))
  }

  /**
   * A request is accepted exactly when it is a non-empty object holding the
   * four required fields; the target then takes ip, username and key as
   * given, a lower-case OS other than "linux", and the normalised level.
   */
  lemma AuditRequestSpec(data: Option<map<string, string>>)
    ensures var r := AuditRequest(data);
      && (data.None? ==> r == Err("No JSON data provided"))
      && (r.Ok? <==> data.Some? && data.value != map[] && forall f :: f in RequiredFields ==> f in data.value)
      && (r.Ok? ==>
            var d := data.value;
            && r.value.ip == d["ip"] && r.value.username == d["username"] && r.value.keyPath == d["key"]
            && HasNoUpper(r.value.os) && r.value.os != "linux" && Lower(r.value.os) == r.value.os
            && r.value.level == NormalizeLevel(if "level" in d then Some(d["level"]) else None))
  {
    if data.Some? && data.value != map[] {
      var d := data.value;
      MissingFieldsSpec(d);
      if MissingFields(d) == [] {
        NormalizeOsSpec(d["os"]);
        LowerIsLower(d["os"]);
        var os := NormalizeOs(d["os"]);
        if Lower(d["os"]) == "linux" {
          assert Lower("ubuntu") == "ubuntu";
        }
      }
    }
  }

  /**
   * The level the started target reports: "default" whenever the requested
   * OS is windows in any case, whatever level was asked for; otherwise the
   * normalised level.
   */
  lemma StartedLevel(data: Option<map<string, string>>)
    requires AuditRequest(data).Ok?
    ensures var rec, d := AuditRequest(data).value, data.value;
      Audit.TargetLevel(rec.os, rec.level)
        == if Lower(d["os"]) == "windows" then "default"
           else NormalizeLevel(if "level" in d then Some(d["level"]) else None)
  {
    var d := data.value;
    AuditRequestSpec(data);
    LowerIsLower(d["os"]);
    var os := AuditRequest(data).value.os;
    if Lower(d["os"]) == "linux" {
      assert os == "ubuntu";
      assert Lower(os) != "windows" by { assert Lower(os)[0] == 'u'; }
    } else {
      assert os == Lower(d["os"]);
    }
  }

  /**
   * audit_single up to the start of the background audit: an invalid request
   * is refused with its message; a valid one builds a fresh target from the
   * request record, which reports level "default" for windows.
   */
  method AuditSingle(data: Option<map<string, string>>, auditId: string) returns (r: Result<Audit.AuditTarget>)
    ensures AuditRequest(data).Err? ==> r.Err? && r.error == AuditRequest(data).error
    ensures AuditRequest(data).Ok? ==>
      && r.Ok? && fresh(r.value)
      && Audit.BuiltFrom(r.value, AuditRequest(data).value, auditId)
      && (r.value.os == "windows" ==> r.value.level == "default")
  {
    var request := AuditRequest(data);
    if request.Err? {
      return Err(request.error);
    }
    var rec := request.value;
    var target := new Audit.AuditTarget(rec.ip, rec.username, rec.keyPath, rec.os, rec.level, auditId);
    return Ok(target);
  }

  // ---------------------------------------------------------------------
  // upload_test

  /** The line filter of upload_test: non-blank, and not starting with '#' before stripping. */
  function UploadLine(line: string): Option<string> {
    if Strip(line) != [] && !StartsWith(line, "#") then Some(Strip(line)) else None
  }

  /** The stripped lines upload_test keeps, in file order. */
  function KeptLines(lines: seq<string>): (kept: seq<string>)
    ensures |kept| <= |lines|
  {
    if lines == [] then []
    else KeptLines(lines[..|lines| - 1]) + Audit.OptionToSeq(UploadLine(lines[|lines| - 1]))
  }

  /** Every kept line is stripped: non-empty, with no whitespace at either end. */
  lemma {:induction false} KeptLinesStripped(lines: seq<string>)
    ensures forall k :: 0 <= k < |KeptLines(lines)| ==>
      var l := KeptLines(lines)[k];
      l != [] && !IsSpace(l[0]) && !IsSpace(l[|l| - 1])
  {
    if lines != [] {
      KeptLinesStripped(lines[..|lines| - 1]);
      StripSpec(lines[|lines| - 1]);
    }
  }

  /** The entry upload_test reports for a kept line with at least four fields. */
  function PreviewLine(line: string): Option<Audit.TargetRecord> {
    var parts := Words(line);
    if |parts| < 4 then None
    else
      var os := Lower(parts[3]);
      var level := if |parts| > 4 then parts[4] else if os != "windows" then "level1" else "default";
      Some(Audit.TargetRecord(parts[0], parts[1], parts[2], os, level))
  }

  /** The previewed targets of the kept lines, in order. */
  function Previews(kept: seq<string>): seq<Audit.TargetRecord> {
    if kept == [] then []
    else Previews(kept[..|kept| - 1]) + Audit.OptionToSeq(PreviewLine(kept[|kept| - 1]))
  }

  /** The answer of upload_test. */
  datatype UploadReport = UploadReport(validTargets: nat, targets: seq<Audit.TargetRecord>, invalidLines: seq<string>)

  /** The message for the i-th kept line (counting from 1) when it has too few fields. */
  function InvalidLine(i: nat, line: string): string {
    "Line " + NatToString(i) + ": " + line
  }

  /** The number of lines with fewer than four fields. */
  function CountShort(kept: seq<string>): (n: nat)
    ensures n <= |kept|
  {
    if kept == [] then 0
    else CountShort(kept[..|kept| - 1]) + (if |Words(kept[|kept| - 1])| < 4 then 1 else 0)
  }

  /** The loop of upload_test over the numbered kept lines. */
  function Classify(kept: seq<string>): (seq<Audit.TargetRecord>, seq<string>) {
    if kept == [] then ([], [])
    else
      var r := Classify(kept[..|kept| - 1]);
      var line := kept[|kept| - 1];
      var p := PreviewLine(line);
      if p.Some? then (r.0 + [p.value], r.1) else (r.0, r.1 + [InvalidLine(|kept|, line)])
  }

  /** A line with fewer than four fields is reported under its number. */
  lemma ClassifyShort(kept: seq<string>, line: string)
    requires PreviewLine(line).None?
    ensures Classify(kept + [line]) == (Classify(kept).0, Classify(kept).1 + [InvalidLine(|kept| + 1, line)])
  {
    var ks := kept + [line];
    assert ks[..|ks| - 1] == kept && ks[|ks| - 1] == line;
  }

  /**
   * Every kept line lands in exactly one of the two lists: the valid ones are
   * the previews of the lines with at least four fields, the invalid ones
   * number the lines with fewer, so the two counts add up to the kept lines.
   */
  lemma {:induction false} ClassifyPartition(kept: seq<string>)
    ensures Classify(kept).0 == Previews(kept)
    ensures |Classify(kept).1| == CountShort(kept)
    ensures |Classify(kept).0| + |Classify(kept).1| == |kept|
  {
    if kept != [] {
      ClassifyPartition(kept[..|kept| - 1]);
    }
  }

  /**
   * upload_test: a missing or unnamed file is an error; otherwise the lines of
   * the content are filtered, numbered and partitioned.
   */
  method UploadTest(file: Option<(string, string)>) returns (r: Result<UploadReport>)
    ensures file.None? ==> r == Err("No file uploaded")
    ensures file.Some? && file.value.0 == "" ==> r == Err("No file selected")
    ensures file.Some? && file.value.0 != "" ==>
      var kept := KeptLines(SplitOn(file.value.1, '\n'));
      && r.Ok?
      && r.value.targets == Classify(kept).0 && r.value.invalidLines == Classify(kept).1
      && r.value.validTargets == |r.value.targets|
  {
    if file.None? {
      return Err("No file uploaded");
    }
    var (filename, content) := file.value;
    if filename == "" {
      return Err("No file selected");
    }
    var lines := KeptLines(SplitOn(content, '\n'));
    var valid: seq<Audit.TargetRecord> := [];
    var invalid: seq<string> := [];
    for i := 0 to |lines|
      invariant (valid, invalid) == Classify(lines[..i])
    {
      var line := lines[i];
      assert lines[..i + 1][..i] == lines[..i];
      var parts := Words(line);
      if |parts| >= 4 {
        var os := Lower(parts[3]);
        var level := if |parts| > 4 then parts[4] else if os != "windows" then "level1" else "default";
        valid := valid + [Audit.TargetRecord(parts[0], parts[1], parts[2], os, level)];
      } else {
        invalid := invalid + [InvalidLine(i + 1, line)];
      }
    }
    assert lines[..|lines|] == lines;
    return Ok(UploadReport(|valid|, valid, invalid));
  }

  /**
   * The filter that matches the targets-file parser: skip a line that is
   * blank or whose stripped text starts with '#'.
   */
  function CorrectedUploadLine(line: string): Option<string> {
    if !Audit.IsBlankOrComment(line) then Some(Strip(line)) else None
  }

  function CorrectedKeptLines(lines: seq<string>): (kept: seq<string>)
    ensures |kept| <= |lines|
  {
    if lines == [] then []
    else CorrectedKeptLines(lines[..|lines| - 1]) + Audit.OptionToSeq(CorrectedUploadLine(lines[|lines| - 1]))
  }

  /** A record as upload_test shows it: the OS lowercased. */
  function Shown(recs: seq<Audit.TargetRecord>): (r: seq<Audit.TargetRecord>)
    ensures |r| == |recs|
  {
    if recs == [] then []
    else Shown(recs[..|recs| - 1]) + [recs[|recs| - 1].(os := Lower(recs[|recs| - 1].os))]
  }

  lemma ShownAppend(a: seq<Audit.TargetRecord>, b: seq<Audit.TargetRecord>)
    requires |b| <= 1
    ensures Shown(a + b) == Shown(a) + Shown(b)
  {
    if b == [] {
      assert a + b == a;
    } else {
      var ab := a + b;
      var x := b[0];
      assert ab[..|ab| - 1] == a && ab[|ab| - 1] == x;
      assert b[..0] == [];
      assert Shown(b) == [x.(os := Lower(x.os))];
    }
  }

  /** One line: the corrected preview shows exactly what the targets-file parser reads. */
  lemma CorrectedLine(line: string)
    ensures Previews(Audit.OptionToSeq(CorrectedUploadLine(line))) == Shown(Audit.OptionToSeq(Audit.ParseLine(line)))
  {
    if !Audit.IsBlankOrComment(line) {
      var s := Strip(line);
      assert |[s][..0]| == 0;
      var parts := Words(s);
      if |parts| >= 4 {
        var rec := Audit.ParseLine(line).value;
        assert Shown([rec]) == Shown([]) + [rec.(os := Lower(rec.os))];
        LowerIsLower(parts[3]);
      }
    }
  }

  /**
   * With the corrected filter, the upload preview lists exactly the targets
   * the targets-file parser builds from the same lines, in the same order,
   * each with its OS lowercased.
   */
  lemma {:induction false} CorrectedPreviewMatchesParser(lines: seq<string>)
    ensures Previews(CorrectedKeptLines(lines)) == Shown(Audit.TargetRecords(lines))
  {
    if lines != [] {
      var init, last := lines[..|lines| - 1], lines[|lines| - 1];
      CorrectedPreviewMatchesParser(init);
      Audit.NextLine(lines, |lines| - 1);
      assert lines[..|lines| - 1 + 1] == lines;
      var o := Audit.OptionToSeq(CorrectedUploadLine(last));
      PreviewsAppend(CorrectedKeptLines(init), o);
      CorrectedLine(last);
      ShownAppend(Audit.TargetRecords(init), Audit.OptionToSeq(Audit.ParseLine(last)));
    }
  }

  lemma PreviewsAppend(a: seq<string>, b: seq<string>)
    requires |b| <= 1
    ensures Previews(a + b) == Previews(a) + Previews(b)
  {
    if b == [] {
      assert a + b == a;
    } else {
      var ab := a + b;
      var x := b[0];
      assert ab[..|ab| - 1] == a && ab[|ab| - 1] == x;
      assert b[..0] == [];
      assert Previews(b) == Audit.OptionToSeq(PreviewLine(x));
    }
  }

  lemma StripIndentedHash()
    ensures Strip(" #") == "#"
  {
    var line: string := " #";
    assert TrimLeft(line) == "#" by { assert line[1..] == "#"; }
    assert TrimRight("#") == "#";
  }

  lemma WordsOfHash()
    ensures Words("#") == ["#"]
  {
    var s: string := "#";
    assert TrimLeft(s) == s;
    assert FirstWord(s) == s by { assert s[1..] == ""; }
    assert s[1..] == "";
  }

  /** The as-written filter keeps " #" as the line "#". */
  lemma KeptIndentedHash()
    ensures KeptLines([" #"]) == ["#"]
  {
    var line: string := " #";
    StripIndentedHash();
    assert !StartsWith(line, "#") by { assert line[..1] == " "; }
    assert UploadLine(line) == Some("#");
    assert |[line][..0]| == 0;
  }

  /** The kept line "#" has too few fields and is reported as line 1. */
  lemma ClassifyHash()
    ensures Classify(["#"]).1 == [InvalidLine(1, "#")]
  {
    WordsOfHash();
    assert PreviewLine("#") == None;
    ClassifyShort([], "#");
    assert [] + ["#"] == ["#"];
  }

  /** Both the targets-file parser and the corrected filter skip " #". */
  lemma IndentedHashSkipped()
    ensures Audit.TargetRecords([" #"]) == []
    ensures CorrectedKeptLines([" #"]) == []
  {
    var line: string := " #";
    StripIndentedHash();
    assert Audit.IsBlankOrComment(line);
    assert |[line][..0]| == 0;
    Audit.TargetRecordsOfLine(line);
  }

  /**
   * The filter as written keeps an indented comment line that the
   * targets-file parser skips, and reports it as an invalid line.
   */
  lemma IndentedCommentKept()
    ensures KeptLines([" #"]) == ["#"]
    ensures Classify(KeptLines([" #"])).1 == [InvalidLine(1, "#")]
    ensures Audit.TargetRecords([" #"]) == []
    ensures CorrectedKeptLines([" #"]) == []
  {
    KeptIndentedHash();
    ClassifyHash();
    IndentedHashSkipped();
  }

  // ---------------------------------------------------------------------
  // scheduled_audits

  /** The life-cycle of a scheduled audit. */
  datatype ScheduleStatus = Scheduled | Running | Completed | Failed

  /**
   * One entry of scheduled_audits. `when` is the scheduled moment and
   * `createdAt` the moment of creation, both on the clock the scheduler reads.
   */
  datatype Schedule = Schedule(id: string, target: string, filePath: string, date: string, time: string,
                               when: int, status: ScheduleStatus, createdAt: int)

  /** The id of a schedule created at the given Unix second. */
  function ScheduleId(timestamp: nat): string {
    "schedule_" + NatToString(timestamp)
  }

  /** The saved upload of a schedule created at the given second. */
  function SchedulePath(uploadFolder: string, timestamp: nat, filename: string): string {
    uploadFolder + "/" + "scheduled_" + NatToString(timestamp) + "_" + filename
  }

  /**
   * The checks of create_schedule, in order: a file, a date and a time, a
   * parseable date and time (`when` is None when the parse failed), and a
   * moment strictly after now. None means the request is accepted.
   */
  function ScheduleRequestError(hasFile: bool, date: Option<string>, time: Option<string>, when: Option<int>, now: int)
    : Option<string>
  {
    if !hasFile then Some("No file uploaded")
    else if date.None? || date.value == "" || time.None? || time.value == "" then Some("Date and time are required")
    else if when.None? then Some("Invalid date or time format")
    else if when.value <= now then Some("Scheduled time must be in the future")
    else None
  }

  /**
   * A request is accepted exactly when it has a file, a non-empty date and
   * time that parse, and a moment after now; a moment at or before now is
   * always rejected.
   */
  lemma ScheduleRequestSpec(hasFile: bool, date: Option<string>, time: Option<string>, when: Option<int>, now: int)
    ensures ScheduleRequestError(hasFile, date, time, when, now).None? <==>
      hasFile && date.Some? && date.value != "" && time.Some? && time.value != "" && when.Some? && when.value > now
    ensures when.Some? && when.value <= now ==> ScheduleRequestError(hasFile, date, time, when, now).Some?
  {
  }

  /** The schedules due at `now`: still scheduled, and their moment has come. */
  function Due(entries: map<string, Schedule>, now: int): set<string> {
    set id | id in entries && entries[id].status == Scheduled && entries[id].when <= now
  }

  /** scheduled_audits and the operations on it. */
  class ScheduleTable {
    var entries: map<string, Schedule>

    /** Every entry is stored under its own id. */
    ghost predicate Valid()
      reads this
    {
      forall id :: id in entries ==> entries[id].id == id
    }

    constructor ()
      ensures entries == map[] && Valid()
    {
      entries := map[];
    }

    /**
     * create_schedule: a rejected request changes nothing; an accepted one
     * stores one entry, status scheduled, under "schedule_<timestamp>", and
     * no other id changes.
     */
    method CreateSchedule(hasFile: bool, filename: string, date: Option<string>, time: Option<string>,
                          when: Option<int>, now: int, timestamp: nat, uploadFolder: string)
      returns (r: Result<string>)
      modifies this
      ensures var err := ScheduleRequestError(hasFile, date, time, when, now);
        && (err.Some? ==> r == Err(err.value) && entries == old(entries))
        && (err.None? ==>
              && r == Ok(ScheduleId(timestamp))
              && entries == old(entries)[r.value := Schedule(r.value, filename, SchedulePath(uploadFolder, timestamp, filename),
                                                             date.value, time.value, when.value, Scheduled, now)])
      ensures old(Valid()) ==> Valid()
    {
      var err := ScheduleRequestError(hasFile, date, time, when, now);
      if err.Some? {
        return Err(err.value);
      }
      var id := ScheduleId(timestamp);
      var path := SchedulePath(uploadFolder, timestamp, filename);
      entries := entries[id := Schedule(id, filename, path, date.value, time.value, when.value, Scheduled, now)];
      return Ok(id);
    }

    /**
     * create_schedule without the clobbering: an id already in use is
     * refused, so an accepted request adds exactly one entry and every
     * existing entry keeps its value.
     */
    method CreateScheduleUnique(hasFile: bool, filename: string, date: Option<string>, time: Option<string>,
                                when: Option<int>, now: int, timestamp: nat, uploadFolder: string)
      returns (r: Result<string>)
      modifies this
      ensures r.Err? ==> entries == old(entries)
      ensures r.Ok? ==>
        && r.value == ScheduleId(timestamp) && r.value !in old(entries) && entries.Keys == old(entries).Keys + {r.value}
        && |entries| == |old(entries)| + 1 && entries[r.value].status == Scheduled
      ensures forall id :: id in old(entries) ==> id in entries && entries[id] == old(entries)[id]
      ensures r.Ok? <==> ScheduleRequestError(hasFile, date, time, when, now).None? && ScheduleId(timestamp) !in old(entries)
      ensures old(Valid()) ==> Valid()
    {
      var err := ScheduleRequestError(hasFile, date, time, when, now);
      if err.Some? {
        return Err(err.value);
      }
      var id := ScheduleId(timestamp);
      if id in entries {
        return Err("Schedule id already in use");
      }
      var path := SchedulePath(uploadFolder, timestamp, filename);
      entries := entries[id := Schedule(id, filename, path, date.value, time.value, when.value, Scheduled, now)];
      return Ok(id);
    }

    /** delete_schedule: removes exactly the given id; an unknown id changes nothing. */
    method DeleteSchedule(id: string) returns (r: Result<bool>)
      modifies this
      ensures id in old(entries) ==> r == Ok(true) && entries == old(entries) - {id}
      ensures id !in old(entries) ==> r == Err("Schedule not found") && entries == old(entries)
      ensures old(Valid()) ==> Valid()
      // With every entry under its own id, the id list_schedules reports for
      // an entry deletes that entry, and no remaining entry reports it.
      ensures old(Valid()) ==> (exists s :: s in old(entries).Values && s.id == id) ==> r == Ok(true)
      ensures old(Valid()) ==> forall s :: s in entries.Values ==> s.id != id
    {
      if id !in entries {
        return Err("Schedule not found");
      }
      entries := entries - {id};
      return Ok(true);
    }

    /** The selection loop of schedule_checker over the table. */
    method SelectDue(now: int) returns (due: set<string>)
      ensures due == Due(entries, now)
    {
      due := {};
      var rest := entries.Keys;
      while rest != {}
        invariant rest <= entries.Keys
        invariant due == Due(entries, now) - rest
        decreases rest
      {
        var id :| id in rest;
        if entries[id].status == Scheduled && entries[id].when <= now {
          due := due + {id};
        }
        rest := rest - {id};
      }
    }

    /** scheduled_audits[id]['status'] = status, for an id in the table. */
    method SetStatus(id: string, status: ScheduleStatus)
      requires id in entries
      modifies this
      ensures entries == old(entries)[id := old(entries)[id].(status := status)]
      ensures old(Valid()) ==> Valid()
    {
      entries := entries[id := entries[id].(status := status)];
    }

    /**
     * One pass of schedule_checker: each due schedule goes to running and
     * then to completed, or to failed when its batch run raised (the ids in
     * `raised`); every other entry is unchanged.
     */
    method RunDue(now: int, raised: set<string>) returns (due: set<string>)
      modifies this
      ensures due == Due(old(entries), now)
      ensures entries.Keys == old(entries).Keys
      ensures forall id :: id in entries ==>
        entries[id] == if id in due then old(entries)[id].(status := if id in raised then Failed else Completed)
                       else old(entries)[id]
      ensures old(Valid()) ==> Valid()
    {
      due := SelectDue(now);
      var rest := due;
      while rest != {}
        invariant rest <= due <= entries.Keys
        invariant entries.Keys == old(entries).Keys
        invariant forall id :: id in entries ==>
          entries[id] == if id in due - rest then old(entries)[id].(status := if id in raised then Failed else Completed)
                         else old(entries)[id]
        invariant old(Valid()) ==> Valid()
        decreases rest
      {
        var id :| id in rest;
        SetStatus(id, Running);
        SetStatus(id, if id in raised then Failed else Completed);
        rest := rest - {id};
      }
    }
  }

  /** Two schedules created in the same second share an id: the later replaces the earlier. */
  method SameSecondCollision() returns (first: Result<string>, second: Result<string>, remaining: nat)
    ensures first.Ok? && second.Ok? && first.value == second.value
    ensures remaining == 1
  {
    var table := new ScheduleTable();
    first := table.CreateSchedule(true, "a.txt", Some("2030-01-01"), Some("10:00"), Some(100), 0, 7, "uploads");
    second := table.CreateSchedule(true, "b.txt", Some("2030-01-01"), Some("11:00"), Some(160), 0, 7, "uploads");
    remaining := |table.entries|;
  }

  /** With the corrected create, the second request of the same second is refused and the first is kept. */
  method SameSecondKept() returns (first: Result<string>, second: Result<string>, remaining: nat)
    ensures first.Ok? && second.Err?
    ensures remaining == 1
  {
    var table := new ScheduleTable();
    first := table.CreateScheduleUnique(true, "a.txt", Some("2030-01-01"), Some("10:00"), Some(100), 0, 7, "uploads");
    assert ScheduleRequestError(true, Some("2030-01-01"), Some("10:00"), Some(100), 0).None?;
    assert first.Ok? && first.value in table.entries;
    second := table.CreateScheduleUnique(true, "b.txt", Some("2030-01-01"), Some("11:00"), Some(160), 0, 7, "uploads");
    remaining := |table.entries|;
  }
}
