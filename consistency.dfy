/**
 * The consistency checks and the line-count audit that follow the path scan
 * (scripts/validate-paths.py:114-170). They only report: every row is a value
 * computed from the files, and nothing here can reach the error list.
 *
 * These reads have no `try`: a file that exists but cannot be read raises
 * and ends the run, which `Audit` gives as a `Failure` carrying the reason.
 */
module Consistency {
  import opened Wrappers
  import opened Text
  import opened Validation

  /** The hand-written reference files SKILL.md must mention. */
  const CuratedFiles: seq<string> := [
    "language-syntax.md", "data-types.md", "orda-modern.md",
    "query-patterns.md", "error-handling.md", "classic-patterns.md",
    "forms-and-ui.md", "web-and-rest.md", "manual-insights.md"
  ]

  /** The generated index files SKILL.md must mention. */
  const IndexFiles: seq<string> := [
    "api-index.md", "commands-index.md", "concepts-index.md",
    "orda-index.md", "rest-index.md", "events-index.md",
    "form-objects-index.md", "webserver-index.md",
    "legacy-commands-index.md", "all-categories-index.md"
  ]

  /** Line ceilings: SKILL.md may have 500 lines, a curated file 400. */
  const SkillCeiling: nat := 500
  const CuratedCeiling: nat := 400

  /** One "referenced in SKILL.md" line: `ok` or `MISSING`. */
  datatype Presence = Presence(file: string, found: bool)

  /** One "Go Deeper sections" line. */
  datatype DeeperRow = DeeperRow(file: string, hasDeeper: bool)

  /** One line of the line-count table: `ok` or `OVER <ceiling>!`. */
  datatype LineRow = LineRow(file: string, lines: nat, ok: bool)

  /** Everything the audit prints, section by section. */
  datatype Report = Report(curated: seq<Presence>, indexes: seq<Presence>, deeper: seq<DeeperRow>, lineRows: seq<LineRow>)

  /** `f in skill_content` for each listed file, in the listed order. */
  function Presences(content: string, files: seq<string>): (r: seq<Presence>)
    ensures |r| == |files|
    ensures forall i | 0 <= i < |r| ::
      r[i].file == files[i] && (r[i].found <==> exists k :: OccursAt(content, files[i], k))
  {
    if files == [] then []
    else
      ContainsIff(content, files[0]);
      [Presence(files[0], Contains(content, files[0]))] + Presences(content, files[1..])
  }

  /** `"Go Deeper" in content or "go deeper" in content.lower()`. */
  function HasGoDeeper(content: string): bool {
    Contains(content, "Go Deeper") || Contains(Lower(content), "go deeper")
  }

  /** `len(content.splitlines())` against a ceiling. */
  function LineRowOf(file: string, content: string, ceiling: nat): LineRow {
    var n := LineCount(content);
    LineRow(file, n, n <= ceiling)
  }

  /** `skill_md.read_text()` when SKILL.md exists, else the empty text. */
  function SkillContent(t: Tree): Result<string, string> {
    match t.skill
    case None => Success("")
    case Some(Read(text)) => Success(text)
    case Some(ReadError(reason)) => Failure(reason)
  }

  /** The Go Deeper lines for the listed files that exist, stopping at the first unreadable one. */
  function DeeperRows(t: Tree, files: seq<string>): Result<seq<DeeperRow>, string> {
    if files == [] then Success([])
    else if files[0] !in t.refs then DeeperRows(t, files[1..])
    else
      match t.refs[files[0]]
      case ReadError(reason) => Failure(reason)
      case Read(text) =>
        var rest := DeeperRows(t, files[1..]);
        if rest.Failure? then rest else Success([DeeperRow(files[0], HasGoDeeper(text))] + rest.value)
  }

  /** The line-count lines for the listed files that exist, stopping at the first unreadable one. */
  function CuratedLineRows(t: Tree, files: seq<string>): Result<seq<LineRow>, string> {
    if files == [] then Success([])
    else if files[0] !in t.refs then CuratedLineRows(t, files[1..])
    else
      match t.refs[files[0]]
      case ReadError(reason) => Failure(reason)
      case Read(text) =>
        var rest := CuratedLineRows(t, files[1..]);
        if rest.Failure? then rest else Success([LineRowOf(files[0], text, CuratedCeiling)] + rest.value)
  }

  /** The consistency checks and the line-count audit, in the order they run. */
  function Audit(t: Tree): Result<Report, string> {
    AuditOf(t, CuratedFiles, IndexFiles)
  }

  /** The audit for the lists `curated` and `indexes`. */
  function AuditOf(t: Tree, curated: seq<string>, indexes: seq<string>): Result<Report, string> {
    match SkillContent(t)
    case Failure(reason) => Failure(reason)
    case Success(skill) =>
      var deeper := DeeperRows(t, curated);
      if deeper.Failure? then Failure(deeper.error)
      else
        var lines := CuratedLineRows(t, curated);
        if lines.Failure? then Failure(lines.error)
        else
          Success(Report(Presences(skill, curated), Presences(skill, indexes), deeper.value,
                         [LineRowOf("SKILL.md", skill, SkillCeiling)] + lines.value))
  }

  /** An unreadable file among those listed exists in the reference directory. */
  ghost predicate SomeUnreadable(t: Tree, files: seq<string>) {
    exists i | 0 <= i < |files| :: files[i] in t.refs && t.refs[files[i]].ReadError?
  }

  /** Lowercasing keeps an occurrence where it is, lowercased. */
  lemma LowerOccurs(s: string, sub: string, i: int)
    requires OccursAt(s, sub, i)
    ensures OccursAt(Lower(s), Lower(sub), i)
  {
    assert Lower(s)[i..i + |sub|] == Lower(sub);
  }

  /** The Go Deeper test passes exactly when the lowercased text contains `go deeper`. */
  lemma GoDeeperCaseInsensitive(content: string)
    ensures HasGoDeeper(content) <==> exists i :: OccursAt(Lower(content), "go deeper", i)
  {
    ContainsIff(content, "Go Deeper");
    ContainsIff(Lower(content), "go deeper");
    assert Lower("Go Deeper") == "go deeper";
    if Contains(content, "Go Deeper") {
      var i :| OccursAt(content, "Go Deeper", i);
      LowerOccurs(content, "Go Deeper", i);
    }
  }

  /** A file of `n` newline-free lines is `ok` against a ceiling exactly when `n` is at most it: 400 lines pass, 401 do not. */
  lemma CeilingBoundary(file: string, ls: seq<string>, ceiling: nat)
    requires forall j | 0 <= j < |ls| :: '\n' !in ls[j]
    ensures LineRowOf(file, Unlines(ls), ceiling).lines == |ls|
    ensures LineRowOf(file, Unlines(ls), ceiling).ok <==> |ls| <= ceiling
  {
    LineCountOfUnlines(ls);
  }

  /** The listed files that exist in the reference directory, in the listed order. */
  function Existing(t: Tree, files: seq<string>): (r: seq<string>)
    ensures forall f :: f in r <==> f in files && f in t.refs
  {
    if files == [] then []
    else if files[0] in t.refs then [files[0]] + Existing(t, files[1..])
    else Existing(t, files[1..])
  }

  /**
   * The Go Deeper check stops at an unreadable file; otherwise it has one
   * line for each listed file that exists, in order, saying whether its
   * lowercased text contains `go deeper`.
   */
  lemma DeeperRowsIff(t: Tree, files: seq<string>)
    ensures DeeperRows(t, files).Failure? <==> SomeUnreadable(t, files)
    ensures DeeperRows(t, files).Success? ==>
      var rows := DeeperRows(t, files).value;
      |rows| == |Existing(t, files)| &&
      forall j | 0 <= j < |rows| ::
        rows[j].file == Existing(t, files)[j] && t.refs[rows[j].file].Read? &&
        (rows[j].hasDeeper <==> exists i :: OccursAt(Lower(t.refs[rows[j].file].text), "go deeper", i))
  {
    DeeperRowsFail(t, files);
    if DeeperRows(t, files).Success? {
      DeeperRowsShape(t, files);
    }
  }

  /** Whether a list holds an unreadable file, decided one file at a time. */
  lemma SomeUnreadableCons(t: Tree, files: seq<string>)
    requires files != []
    ensures SomeUnreadable(t, files) <==>
      (files[0] in t.refs && t.refs[files[0]].ReadError?) || SomeUnreadable(t, files[1..])
  {
    assert forall i | 1 <= i < |files| :: files[i] == files[1..][i - 1];
    if SomeUnreadable(t, files[1..]) {
      var i :| 0 <= i < |files[1..]| && files[1..][i] in t.refs && t.refs[files[1..][i]].ReadError?;
      assert files[i + 1] == files[1..][i];
    }
  }

  lemma {:induction false} DeeperRowsFail(t: Tree, files: seq<string>)
    ensures DeeperRows(t, files).Failure? <==> SomeUnreadable(t, files)
  {
    if files != [] {
      DeeperRowsFail(t, files[1..]);
      SomeUnreadableCons(t, files);
    }
  }

  lemma {:induction false} DeeperRowsShape(t: Tree, files: seq<string>)
    requires DeeperRows(t, files).Success?
    ensures
      var rows := DeeperRows(t, files).value;
      |rows| == |Existing(t, files)| &&
      forall j | 0 <= j < |rows| ::
        rows[j].file == Existing(t, files)[j] && t.refs[rows[j].file].Read? &&
        (rows[j].hasDeeper <==> exists i :: OccursAt(Lower(t.refs[rows[j].file].text), "go deeper", i))
  {
    if files != [] {
      DeeperRowsShape(t, files[1..]);
      var rest := DeeperRows(t, files[1..]);
      if files[0] in t.refs {
        var text := t.refs[files[0]].text;
        GoDeeperCaseInsensitive(text);
        var rows := [DeeperRow(files[0], HasGoDeeper(text))] + rest.value;
        var names := [files[0]] + Existing(t, files[1..]);
        assert DeeperRows(t, files) == Success(rows) && Existing(t, files) == names;
        forall j | 0 <= j < |rows|
          ensures rows[j].file == names[j] && t.refs[rows[j].file].Read? &&
            (rows[j].hasDeeper <==> exists i :: OccursAt(Lower(t.refs[rows[j].file].text), "go deeper", i))
        {
          if j > 0 {
            assert rows[j] == rest.value[j - 1] && names[j] == Existing(t, files[1..])[j - 1];
          }
        }
      }
    }
  }

  /** The line audit stops at an unreadable file exactly when the Go Deeper check did, and otherwise has a line per existing file. */
  lemma {:induction false} LineRowsIff(t: Tree, files: seq<string>)
    ensures CuratedLineRows(t, files).Failure? <==> SomeUnreadable(t, files)
    ensures CuratedLineRows(t, files).Success? ==>
      var rows := CuratedLineRows(t, files).value;
      |rows| == |Existing(t, files)| &&
      forall j | 0 <= j < |rows| ::
        rows[j].file == Existing(t, files)[j] && t.refs[rows[j].file].Read? &&
        rows[j].lines == LineCount(t.refs[rows[j].file].text) &&
        (rows[j].ok <==> rows[j].lines <= CuratedCeiling)
  {
    if files != [] {
      LineRowsIff(t, files[1..]);
      SomeUnreadableCons(t, files);
    }
  }

  /** No listed filename is empty; a step that keeps the proof of `SkillMissingAudit` small. */
  lemma NamesNonEmpty()
    ensures forall i | 0 <= i < |CuratedFiles| :: |CuratedFiles[i]| > 0
    ensures forall i | 0 <= i < |IndexFiles| :: |IndexFiles[i]| > 0
  {
  }

  /** The empty text mentions no filename. */
  lemma PresencesOfEmpty(files: seq<string>)
    requires forall i | 0 <= i < |files| :: |files[i]| > 0
    ensures forall p | p in Presences("", files) :: !p.found
  {
    var r := Presences("", files);
    forall p | p in r ensures !p.found {
      var i :| 0 <= i < |r| && r[i] == p;
      assert !exists k :: OccursAt("", files[i], k);
    }
  }

  /**
   * The audit ends the run early exactly when SKILL.md or a curated
   * reference file exists but cannot be read.
   */
  lemma AuditFailsIff(t: Tree)
    ensures Audit(t).Failure? <==>
      (t.skill.Some? && t.skill.value.ReadError?) || SomeUnreadable(t, CuratedFiles)
  {
    AuditOfFailsIff(t, CuratedFiles, IndexFiles);
  }

  lemma AuditOfFailsIff(t: Tree, curated: seq<string>, indexes: seq<string>)
    ensures AuditOf(t, curated, indexes).Failure? <==>
      (t.skill.Some? && t.skill.value.ReadError?) || SomeUnreadable(t, curated)
  {
    DeeperRowsIff(t, curated);
    LineRowsIff(t, curated);
  }

  /**
   * Without SKILL.md the audit reads the empty text: every filename is
   * reported missing and SKILL.md counts 0 lines, within its ceiling.
   */
  lemma SkillMissingAudit(t: Tree)
    requires t.skill.None? && !SomeUnreadable(t, CuratedFiles)
    ensures Audit(t).Success?
    ensures Audit(t).value.lineRows[0] == LineRow("SKILL.md", 0, true)
    ensures forall p | p in Audit(t).value.curated :: !p.found
    ensures forall p | p in Audit(t).value.indexes :: !p.found
  {
    NamesNonEmpty();
    SkillMissingAuditOf(t, CuratedFiles, IndexFiles);
  }

  lemma SkillMissingAuditOf(t: Tree, curated: seq<string>, indexes: seq<string>)
    requires t.skill.None? && !SomeUnreadable(t, curated)
    requires forall i | 0 <= i < |curated| :: |curated[i]| > 0
    requires forall i | 0 <= i < |indexes| :: |indexes[i]| > 0
    ensures AuditOf(t, curated, indexes).Success?
    ensures AuditOf(t, curated, indexes).value.lineRows[0] == LineRow("SKILL.md", 0, true)
    ensures forall p | p in AuditOf(t, curated, indexes).value.curated :: !p.found
    ensures forall p | p in AuditOf(t, curated, indexes).value.indexes :: !p.found
  {
    AuditOfFailsIff(t, curated, indexes);
    assert SkillContent(t) == Success("");
    PresencesOfEmpty(curated);
    PresencesOfEmpty(indexes);
    assert Lines("") == [];
  }

  /** A SKILL.md naming `data-types.md` but not `forms-and-ui.md` marks the first `ok` and the second missing. */
  lemma PresenceExample(text: string)
    requires exists k :: OccursAt(text, "data-types.md", k)
    requires !exists k :: OccursAt(text, "forms-and-ui.md", k)
    ensures Presences(text, CuratedFiles)[1] == Presence("data-types.md", true)
    ensures Presences(text, CuratedFiles)[6] == Presence("forms-and-ui.md", false)
  {
  }
}
