/**
 * `check_paths_in_file` and the scan of SKILL.md and of the reference files:
 * every kept match is counted in `checked`, and a match whose target does
 * not exist becomes an error (patterns 1-3) or a warning (pattern 4).
 */
module Validation {
  import opened Wrappers
  import opened Order
  import opened Patterns

  /** What `read_text` gives: the text, or the failure it raised. */
  datatype ReadResult = Read(text: string) | ReadError(reason: string)

  /**
   * The files the script sees under the skill directory `root`:
   * `docs` holds the other paths that exist there (files and directories
   * under docs/, as written in references), `skill` is SKILL.md (None when
   * it does not exist) and `refs` maps each name `glob("*.md")` lists in
   * references/ to what reading that file gives.
   */
  datatype Tree = Tree(root: string, docs: set<string>, skill: Option<ReadResult>, refs: map<string, ReadResult>)

  /** `(skill_dir / path).exists()` for a captured path. */
  predicate Exists(t: Tree, path: string) {
    if |path| >= 11 && path[..11] == "references/" then path[11..] in t.refs else path in t.docs
  }

  /** A path captured by one of the four patterns. */
  datatype Reference = Reference(kind: Kind, path: string)

  /** Pattern 1 skips template paths holding `{` before counting them. */
  predicate Skipped(k: Kind, path: string) {
    k == BacktickFile && '{' in path
  }

  /** The references one pattern's paths yield, in order. */
  function Kept(k: Kind, paths: seq<string>): seq<Reference>
  {
    if paths == [] then []
    else
      var last := paths[|paths| - 1];
      Kept(k, paths[..|paths| - 1]) + if Skipped(k, last) then [] else [Reference(k, last)]
  }

  /** The references `check_paths_in_file` checks in a readable file, pattern by pattern. */
  function References(text: string): seq<Reference> {
    Kept(BacktickFile, Paths(BacktickFile, text)) + Kept(BacktickDir, Paths(BacktickDir, text)) +
    Kept(RefLink, Paths(RefLink, text)) + Kept(BareMention, Paths(BareMention, text))
  }

  /** The finding recorded for a reference whose target is missing, in file `name`. */
  function Message(name: string, r: Reference): string {
    match r.kind
    case BacktickFile => name + ": broken path `" + r.path + "`"
    case BacktickDir => name + ": broken directory `" + r.path + "`"
    case RefLink => name + ": broken ref link `" + r.path + "`"
    case BareMention => name + ": possibly broken path `" + r.path + "`"
  }

  /** The accumulated state of a run: `errors`, `warnings` and `checked`. */
  datatype Log = Log(errors: seq<string>, warnings: seq<string>, checked: nat) {
    /** This log followed by `next`: findings appended in order, counts added. */
    function Then(next: Log): Log {
      Log(errors + next.errors, warnings + next.warnings, checked + next.checked)
    }
  }

  const Empty := Log([], [], 0)

  /** What checking one reference adds. */
  function Check(name: string, r: Reference, t: Tree): Log {
    if Exists(t, r.path) then Log([], [], 1)
    else if r.kind.Strict() then Log([Message(name, r)], [], 1)
    else Log([], [Message(name, r)], 1)
  }

  /** What checking references `rs` of file `name`, in order, adds. */
  function Checks(name: string, rs: seq<Reference>, t: Tree): Log {
    if rs == [] then Empty
    else Checks(name, rs[..|rs| - 1], t).Then(Check(name, rs[|rs| - 1], t))
  }

  /** The error recorded for a file that cannot be read. */
  function CannotRead(filepath: string, reason: string): string {
    "Cannot read " + filepath + ": " + reason
  }

  /** `refs_dir / name` as a string. */
  function RefPath(t: Tree, name: string): string {
    t.root + "/references/" + name
  }

  /** What `check_paths_in_file` adds for a file at `filepath` named `name`. */
  function FileLog(filepath: string, name: string, read: ReadResult, t: Tree): Log {
    match read
    case ReadError(reason) => Log([CannotRead(filepath, reason)], [], 0)
    case Read(text) => Checks(name, References(text), t)
  }

  /** The order the reference files are scanned in: `sorted(refs_dir.glob("*.md"))`. */
  function ScanOrder(t: Tree): seq<string> {
    SortedNames(t.refs.Keys)
  }

  /** What the SKILL.md step adds: its checks, or the error that it is missing. */
  function SkillLog(t: Tree): Log {
    match t.skill
    case None => Log(["SKILL.md not found!"], [], 0)
    case Some(read) => FileLog(t.root + "/SKILL.md", "SKILL.md", read, t)
  }

  /** What checking the reference files `names`, in order, adds. */
  function RefsLog(t: Tree, names: seq<string>): Log
    requires forall n | n in names :: n in t.refs
  {
    if names == [] then Empty
    else
      var last := names[|names| - 1];
      RefsLog(t, names[..|names| - 1]).Then(FileLog(RefPath(t, last), last, t.refs[last], t))
  }

  /** What the whole path scan adds: SKILL.md first, then every reference file in sorted order. */
  function ScanLog(t: Tree): Log {
    SkillLog(t).Then(RefsLog(t, ScanOrder(t)))
  }

  /** The accumulator the script keeps in the globals `errors`, `warnings` and `checked`. */
  class Validator {
    var errors: seq<string>
    var warnings: seq<string>
    var checked: nat

    function Current(): Log
      reads this
    {
      Log(errors, warnings, checked)
    }

    constructor ()
      ensures Current() == Empty
    {
      errors, warnings, checked := [], [], 0;
    }

    /** The body of a `for m in re.finditer(...)` loop: skip, count, and record a miss. */
    method CheckPath(k: Kind, name: string, path: string, t: Tree)
      modifies this
      ensures Current() == if Skipped(k, path) then old(Current()) else old(Current()).Then(Check(name, Reference(k, path), t))
    {
      if Skipped(k, path) {
        return;
      }
      checked := checked + 1;
      if !Exists(t, path) {
        if k.Strict() {
          errors := errors + [Message(name, Reference(k, path))];
        } else {
          warnings := warnings + [Message(name, Reference(k, path))];
        }
      }
    }

    /** One `for m in re.finditer(...)` loop of `check_paths_in_file`, over pattern `k`'s paths. */
    method CheckMatches(k: Kind, name: string, paths: seq<string>, t: Tree)
      modifies this
      ensures Current() == old(Current()).Then(Checks(name, Kept(k, paths), t))
    {
      ghost var start := Current();
      ThenEmpty(start);
      assert paths[..0] == [];
      var i := 0;
      while i < |paths|
        invariant 0 <= i <= |paths|
        invariant Current() == start.Then(Checks(name, Kept(k, paths[..i]), t))
      {
        CheckPath(k, name, paths[i], t);
        CheckMatchesStep(start, k, name, paths, i, t);
        i := i + 1;
      }
      assert paths[..|paths|] == paths;
    }

    /** `check_paths_in_file(filepath)` for a file named `name`. */
    method CheckPathsInFile(filepath: string, name: string, read: ReadResult, t: Tree)
      modifies this
      ensures Current() == old(Current()).Then(FileLog(filepath, name, read, t))
    {
      match read
      case ReadError(reason) =>
        errors := errors + [CannotRead(filepath, reason)];
      case Read(text) =>
        ghost var start := Current();
        var files := Paths(BacktickFile, text);
        CheckMatches(BacktickFile, name, files, t);
        ghost var done := Kept(BacktickFile, files);
        var dirs := Paths(BacktickDir, text);
        CheckMatches(BacktickDir, name, dirs, t);
        ExtendChecks(start, name, done, Kept(BacktickDir, dirs), t);
        done := done + Kept(BacktickDir, dirs);
        var links := Paths(RefLink, text);
        CheckMatches(RefLink, name, links, t);
        ExtendChecks(start, name, done, Kept(RefLink, links), t);
        done := done + Kept(RefLink, links);
        var bare := Paths(BareMention, text);
        CheckMatches(BareMention, name, bare, t);
        ExtendChecks(start, name, done, Kept(BareMention, bare), t);
        done := done + Kept(BareMention, bare);
        assert done == References(text);
    }

    /** The SKILL.md step: check it, or record that it is missing. */
    method ScanSkill(t: Tree)
      modifies this
      ensures Current() == old(Current()).Then(SkillLog(t))
    {
      match t.skill {
        case Some(read) =>
          CheckPathsInFile(t.root + "/SKILL.md", "SKILL.md", read, t);
        case None =>
          errors := errors + ["SKILL.md not found!"];
      }
    }

    /** The loop over the reference files: each one in the order given. */
    method ScanRefs(t: Tree, names: seq<string>)
      requires forall n | n in names :: n in t.refs
      modifies this
      ensures Current() == old(Current()).Then(RefsLog(t, names))
    {
      ghost var start := Current();
      ThenEmpty(start);
      assert names[..0] == [];
      var i := 0;
      while i < |names|
        invariant 0 <= i <= |names|
        invariant Current() == start.Then(RefsLog(t, names[..i]))
      {
        var name := names[i];
        ghost var done := RefsLog(t, names[..i]);
        CheckPathsInFile(RefPath(t, name), name, t.refs[name], t);
        RefsLogStep(t, names, i);
        ThenAssociative(start, done, FileLog(RefPath(t, name), name, t.refs[name], t));
        i := i + 1;
      }
      assert names[..|names|] == names;
    }

    /** The path scan: SKILL.md (or the error that it is missing), then the reference files in sorted order. */
    method ScanAll(t: Tree)
      modifies this
      ensures Current() == old(Current()).Then(ScanLog(t))
    {
      ScanSkill(t);
      ScanRefs(t, ScanOrder(t));
      ThenAssociative(old(Current()), SkillLog(t), RefsLog(t, ScanOrder(t)));
    }
  }

  lemma RefsLogStep(t: Tree, names: seq<string>, i: nat)
    requires forall n | n in names :: n in t.refs
    requires i < |names|
    ensures RefsLog(t, names[..i + 1])
         == RefsLog(t, names[..i]).Then(FileLog(RefPath(t, names[i]), names[i], t.refs[names[i]], t))
  {
    assert names[..i + 1][..i] == names[..i];
  }

  lemma ThenEmpty(l: Log)
    ensures l.Then(Empty) == l
  {
    assert l.errors + [] == l.errors;
    assert l.warnings + [] == l.warnings;
  }

  /** Appending one pattern's references to those already checked. */
  lemma ExtendChecks(start: Log, name: string, done: seq<Reference>, next: seq<Reference>, t: Tree)
    ensures start.Then(Checks(name, done, t)).Then(Checks(name, next, t)) == start.Then(Checks(name, done + next, t))
  {
    ChecksAppend(name, done, next, t);
    ThenAssociative(start, Checks(name, done, t), Checks(name, next, t));
  }

  /** Checking `a` then `b` adds what checking `a + b` adds. */
  lemma {:induction false} ChecksAppend(name: string, a: seq<Reference>, b: seq<Reference>, t: Tree)
    ensures Checks(name, a + b, t) == Checks(name, a, t).Then(Checks(name, b, t))
    decreases |b|
  {
    if b == [] {
      assert a + b == a;
      ThenEmpty(Checks(name, a, t));
    } else {
      var b', last := b[..|b| - 1], b[|b| - 1];
      assert b == b' + [last];
      assert a + b == (a + b') + [last];
      ChecksStep(name, a + b', last, t);
      ChecksStep(name, b', last, t);
      ChecksAppend(name, a, b', t);
      ThenAssociative(Checks(name, a, t), Checks(name, b', t), Check(name, last, t));
    }
  }

  /** A pattern's paths yield exactly the references of that pattern that are not skipped. */
  lemma {:induction false} KeptIff(k: Kind, paths: seq<string>, r: Reference)
    ensures r in Kept(k, paths) <==> r.kind == k && r.path in paths && !Skipped(k, r.path)
    decreases |paths|
  {
    if paths != [] {
      var init := paths[..|paths| - 1];
      KeptIff(k, init, r);
      assert paths == init + [paths[|paths| - 1]];
    }
  }

  /**
   * A readable file is checked for exactly the paths the four patterns
   * capture, except the pattern-1 paths holding `{`.
   */
  lemma ReferencesIff(text: string, r: Reference)
    ensures r in References(text) <==> r.path in Paths(r.kind, text) && !Skipped(r.kind, r.path)
  {
    KeptIff(BacktickFile, Paths(BacktickFile, text), r);
    KeptIff(BacktickDir, Paths(BacktickDir, text), r);
    KeptIff(RefLink, Paths(RefLink, text), r);
    KeptIff(BareMention, Paths(BareMention, text), r);
  }

  /** Patterns 2-4 keep every path they capture, so each adds its full match count to `checked`. */
  lemma {:induction false} KeptAll(k: Kind, paths: seq<string>)
    requires k != BacktickFile
    ensures |Kept(k, paths)| == |paths|
    ensures forall j | 0 <= j < |paths| :: Kept(k, paths)[j] == Reference(k, paths[j])
    decreases |paths|
  {
    if paths != [] {
      KeptAll(k, paths[..|paths| - 1]);
    }
  }

  /** How many of `paths` hold no `{`, counted from the front. */
  function CountWithoutBrace(paths: seq<string>): nat {
    if paths == [] then 0
    else (if '{' in paths[0] then 0 else 1) + CountWithoutBrace(paths[1..])
  }

  lemma {:induction false} CountWithoutBraceSnoc(a: seq<string>, x: string)
    ensures CountWithoutBrace(a + [x]) == CountWithoutBrace(a) + if '{' in x then 0 else 1
    decreases |a|
  {
    if a == [] {
      assert a + [x] == [x];
    } else {
      assert (a + [x])[1..] == a[1..] + [x];
      CountWithoutBraceSnoc(a[1..], x);
    }
  }

  /** Pattern 1 keeps exactly its paths without `{`. */
  lemma {:induction false} KeptFileCount(paths: seq<string>)
    ensures |Kept(BacktickFile, paths)| == CountWithoutBrace(paths)
    decreases |paths|
  {
    if paths != [] {
      var init, last := paths[..|paths| - 1], paths[|paths| - 1];
      KeptFileCount(init);
      assert paths == init + [last];
      CountWithoutBraceSnoc(init, last);
    }
  }

  /**
   * A readable file adds to `checked` its pattern-1 matches without `{`
   * plus every match of patterns 2, 3 and 4.
   */
  lemma CheckedCount(filepath: string, name: string, text: string, t: Tree)
    ensures FileLog(filepath, name, Read(text), t).checked ==
      CountWithoutBrace(Paths(BacktickFile, text)) + |Paths(BacktickDir, text)| +
      |Paths(RefLink, text)| + |Paths(BareMention, text)|
  {
    ChecksCount(name, References(text), t);
    KeptFileCount(Paths(BacktickFile, text));
    KeptAll(BacktickDir, Paths(BacktickDir, text));
    KeptAll(RefLink, Paths(RefLink, text));
    KeptAll(BareMention, Paths(BareMention, text));
  }

  /** Every reference is counted once, and each yields at most one finding. */
  lemma {:induction false} ChecksCount(name: string, rs: seq<Reference>, t: Tree)
    ensures Checks(name, rs, t).checked == |rs|
    ensures |Checks(name, rs, t).errors| + |Checks(name, rs, t).warnings| <= |rs|
    decreases |rs|
  {
    if rs != [] {
      ChecksCount(name, rs[..|rs| - 1], t);
    }
  }

  /** The errors are exactly the messages of the strict references whose targets are missing. */
  lemma {:induction false} ErrorsIff(name: string, rs: seq<Reference>, t: Tree, e: string)
    ensures e in Checks(name, rs, t).errors <==>
      exists r :: r in rs && r.kind.Strict() && !Exists(t, r.path) && e == Message(name, r)
    decreases |rs|
  {
    if rs != [] {
      var init, last := rs[..|rs| - 1], rs[|rs| - 1];
      ErrorsIff(name, init, t, e);
      assert rs == init + [last];
      if e in Checks(name, rs, t).errors && e !in Checks(name, init, t).errors {
        assert e == Message(name, last);
      }
    }
  }

  /** The warnings are exactly the messages of the pattern-4 references whose targets are missing. */
  lemma {:induction false} WarningsIff(name: string, rs: seq<Reference>, t: Tree, w: string)
    ensures w in Checks(name, rs, t).warnings <==>
      exists r :: r in rs && !r.kind.Strict() && !Exists(t, r.path) && w == Message(name, r)
    decreases |rs|
  {
    if rs != [] {
      var init, last := rs[..|rs| - 1], rs[|rs| - 1];
      WarningsIff(name, init, t, w);
      assert rs == init + [last];
      if w in Checks(name, rs, t).warnings && w !in Checks(name, init, t).warnings {
        assert w == Message(name, last);
      }
    }
  }

  /** References whose targets all exist produce no error and no warning. */
  lemma {:induction false} PresentTargetsAreSilent(name: string, rs: seq<Reference>, t: Tree)
    requires forall r | r in rs :: Exists(t, r.path)
    ensures Checks(name, rs, t).errors == [] && Checks(name, rs, t).warnings == []
    decreases |rs|
  {
    if rs != [] {
      PresentTargetsAreSilent(name, rs[..|rs| - 1], t);
    }
  }

  /** An unreadable file adds one error and nothing else; a readable one adds one count per reference. */
  lemma FileLogCounts(filepath: string, name: string, read: ReadResult, t: Tree)
    ensures read.ReadError? ==>
      FileLog(filepath, name, read, t) == Log([CannotRead(filepath, read.reason)], [], 0)
    ensures read.Read? ==>
      FileLog(filepath, name, read, t).checked == |References(read.text)| &&
      |FileLog(filepath, name, read, t).errors| + |FileLog(filepath, name, read, t).warnings| <= |References(read.text)|
  {
    if read.Read? {
      ChecksCount(name, References(read.text), t);
    }
  }

  /** The findings of every listed file appear among those of the whole list. */
  lemma {:induction false} RefsLogIncludes(t: Tree, names: seq<string>, j: nat, e: string)
    requires forall n | n in names :: n in t.refs
    requires j < |names| && e in FileLog(RefPath(t, names[j]), names[j], t.refs[names[j]], t).errors
    ensures e in RefsLog(t, names).errors
    decreases |names|
  {
    if j < |names| - 1 {
      RefsLogIncludes(t, names[..|names| - 1], j, e);
    }
  }

  /** Every error a reference file yields is among the errors of the scan. */
  lemma ReferenceErrorsReported(t: Tree, name: string, e: string)
    requires name in t.refs && e in FileLog(RefPath(t, name), name, t.refs[name], t).errors
    ensures e in ScanLog(t).errors
  {
    var names := ScanOrder(t);
    var j :| 0 <= j < |names| && names[j] == name;
    RefsLogIncludes(t, names, j, e);
  }

  /** A reference file that cannot be read is reported by the scan, whatever else happens. */
  lemma UnreadableReferenceReported(t: Tree, name: string)
    requires name in t.refs && t.refs[name].ReadError?
    ensures CannotRead(RefPath(t, name), t.refs[name].reason) in ScanLog(t).errors
  {
    ReferenceErrorsReported(t, name, CannotRead(RefPath(t, name), t.refs[name].reason));
  }

  /** Without SKILL.md the scan records that error first and still checks every reference file. */
  lemma SkillMissingStillScans(t: Tree)
    requires t.skill.None?
    ensures ScanLog(t).errors == ["SKILL.md not found!"] + RefsLog(t, ScanOrder(t)).errors
    ensures ScanLog(t).checked == RefsLog(t, ScanOrder(t)).checked
    ensures forall name, e | name in t.refs && e in FileLog(RefPath(t, name), name, t.refs[name], t).errors ::
      e in ScanLog(t).errors
  {
    forall name, e | name in t.refs && e in FileLog(RefPath(t, name), name, t.refs[name], t).errors
      ensures e in ScanLog(t).errors
    {
      ReferenceErrorsReported(t, name, e);
    }
  }

  /** Every strict reference in `text` names something that exists. */
  ghost predicate Resolved(t: Tree, text: string) {
    forall r | r in References(text) && r.kind.Strict() :: Exists(t, r.path)
  }

  /** SKILL.md and every reference file can be read, and all their strict references resolve. */
  ghost predicate Clean(t: Tree) {
    && t.skill.Some? && t.skill.value.Read? && Resolved(t, t.skill.value.text)
    && forall name | name in t.refs :: t.refs[name].Read? && Resolved(t, t.refs[name].text)
  }

  /** A readable file yields no error exactly when its strict references all resolve. */
  lemma ReadableFileErrors(filepath: string, name: string, text: string, t: Tree)
    ensures FileLog(filepath, name, Read(text), t).errors == [] <==> Resolved(t, text)
  {
    var rs := References(text);
    if Checks(name, rs, t).errors != [] {
      ErrorsIff(name, rs, t, Checks(name, rs, t).errors[0]);
    }
    if !Resolved(t, text) {
      var r :| r in rs && r.kind.Strict() && !Exists(t, r.path);
      ErrorsIff(name, rs, t, Message(name, r));
    }
  }

  /** Reference files that are all readable and resolved add no error. */
  lemma {:induction false} CleanRefsLog(t: Tree, names: seq<string>)
    requires forall n | n in names :: n in t.refs && t.refs[n].Read? && Resolved(t, t.refs[n].text)
    ensures RefsLog(t, names).errors == []
    decreases |names|
  {
    if names != [] {
      var last := names[|names| - 1];
      CleanRefsLog(t, names[..|names| - 1]);
      ReadableFileErrors(RefPath(t, last), last, t.refs[last].text, t);
    }
  }

  /**
   * The scan records no error exactly when SKILL.md exists and can be read,
   * every reference file can be read, and every strict reference in them
   * resolves; pattern-4 mentions never matter.
   */
  lemma ScanCleanIff(t: Tree)
    ensures ScanLog(t).errors == [] <==> Clean(t)
  {
    if Clean(t) {
      ReadableFileErrors(t.root + "/SKILL.md", "SKILL.md", t.skill.value.text, t);
      CleanRefsLog(t, ScanOrder(t));
    } else if t.skill.None? {
    } else if t.skill.value.ReadError? {
    } else if !Resolved(t, t.skill.value.text) {
      ReadableFileErrors(t.root + "/SKILL.md", "SKILL.md", t.skill.value.text, t);
    } else {
      var name :| name in t.refs && !(t.refs[name].Read? && Resolved(t, t.refs[name].text));
      if t.refs[name].ReadError? {
        UnreadableReferenceReported(t, name);
      } else {
        ReadableFileErrors(RefPath(t, name), name, t.refs[name].text, t);
        var fl := FileLog(RefPath(t, name), name, t.refs[name], t);
        ReferenceErrorsReported(t, name, fl.errors[0]);
      }
    }
  }

  /** The empty log changes nothing it is put in front of or after. */
  lemma EmptyThen(l: Log)
    ensures Empty.Then(l) == l && l.Then(Empty) == l
  {
    ThenEmpty(l);
  }

  /** One turn of the `CheckMatches` loop, stated on the logs. */
  lemma CheckMatchesStep(start: Log, k: Kind, name: string, paths: seq<string>, i: nat, t: Tree)
    requires i < |paths|
    ensures start.Then(Checks(name, Kept(k, paths[..i + 1]), t)) ==
      var before := start.Then(Checks(name, Kept(k, paths[..i]), t));
      if Skipped(k, paths[i]) then before else before.Then(Check(name, Reference(k, paths[i]), t))
  {
    var done := Kept(k, paths[..i]);
    KeptStep(k, paths, i);
    if !Skipped(k, paths[i]) {
      ChecksStep(name, done, Reference(k, paths[i]), t);
      ThenAssociative(start, Checks(name, done, t), Check(name, Reference(k, paths[i]), t));
    }
  }

  lemma KeptStep(k: Kind, paths: seq<string>, i: nat)
    requires i < |paths|
    ensures Skipped(k, paths[i]) ==> Kept(k, paths[..i + 1]) == Kept(k, paths[..i])
    ensures !Skipped(k, paths[i]) ==> Kept(k, paths[..i + 1]) == Kept(k, paths[..i]) + [Reference(k, paths[i])]
  {
    assert paths[..i + 1][..i] == paths[..i];
  }

  lemma ChecksStep(name: string, rs: seq<Reference>, r: Reference, t: Tree)
    ensures Checks(name, rs + [r], t) == Checks(name, rs, t).Then(Check(name, r, t))
  {
    assert (rs + [r])[..|rs|] == rs;
  }

  lemma ThenAssociative(a: Log, b: Log, c: Log)
    ensures a.Then(b).Then(c) == a.Then(b.Then(c))
  {
    assert a.errors + b.errors + c.errors == a.errors + (b.errors + c.errors);
    assert a.warnings + b.warnings + c.warnings == a.warnings + (b.warnings + c.warnings);
  }
}
