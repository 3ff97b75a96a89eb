/**
 * The top level of the script: the path scan, the report, the consistency
 * and line-count audit, and the exit status (scripts/validate-paths.py:73-83,
 * 114-181).
 */
module Run {
  import opened Wrappers
  import opened Validation
  import opened Consistency

  /** What one run leaves behind: the accumulated log, what the audit printed (or why it stopped), and the exit status. */
  datatype Outcome = Outcome(log: Log, audit: Result<Report, string>, status: int)

  /** The verdict: `sys.exit(0)` when no error was recorded, `sys.exit(1)` otherwise. */
  function ExitStatus(errors: seq<string>): (r: int)
    ensures r == 0 || r == 1
    ensures r == 0 <==> errors == []
  {
    if |errors| == 0 then 0 else 1
  }

  /**
   * An audit that stops on an unreadable file only ever stops after the scan
   * has recorded that same file as unreadable, so the run fails either way:
   * the scan holds the `Cannot read` error of an unreadable SKILL.md and of
   * every curated file that exists but cannot be read.
   */
  lemma AuditFailureIsAnError(t: Tree)
    requires Audit(t).Failure?
    ensures ScanLog(t).errors != []
    ensures t.skill.Some? && t.skill.value.ReadError? ==>
      CannotRead(t.root + "/SKILL.md", t.skill.value.reason) in ScanLog(t).errors
    ensures forall f | f in CuratedFiles && f in t.refs && t.refs[f].ReadError? ::
      CannotRead(RefPath(t, f), t.refs[f].reason) in ScanLog(t).errors
  {
    AuditFailsIff(t);
    if t.skill.Some? && t.skill.value.ReadError? {
      assert SkillLog(t).errors == [CannotRead(t.root + "/SKILL.md", t.skill.value.reason)];
    }
    forall f | f in CuratedFiles && f in t.refs && t.refs[f].ReadError?
      ensures CannotRead(RefPath(t, f), t.refs[f].reason) in ScanLog(t).errors
    {
      UnreadableReferenceReported(t, f);
    }
  }

  /**
   * One run of the script on the tree `t`: a fresh accumulator, the scan,
   * then the audit. An audit that raises ends the run with status 1. The
   * run passes exactly when no error was recorded, which is exactly when
   * every file can be read and every strict reference resolves, however
   * many warnings pattern-4 mentions give.
   */
  method Run(t: Tree) returns (o: Outcome)
    ensures o.log == ScanLog(t)
    ensures o.audit == Audit(t)
    ensures o.status == 0 || o.status == 1
    ensures o.status == 0 <==> ScanLog(t).errors == []
    ensures o.status == 0 <==> Clean(t)
  {
    var v := new Validator();
    v.ScanAll(t);
    EmptyThen(ScanLog(t));
    var report := Audit(t);
    var status;
    if report.Failure? {
      AuditFailureIsAnError(t);
      status := 1;
    } else {
      status := ExitStatus(v.errors);
    }
    ScanCleanIff(t);
    o := Outcome(v.Current(), report, status);
  }
}
