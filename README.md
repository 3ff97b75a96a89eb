# validate-paths, modelled in Dafny

`scripts/validate-paths.py` checks a documentation bundle. The bundle is a
skill directory holding `SKILL.md`, a `references/` directory of markdown
files and a `docs/` tree. The script runs in four steps:

- It scans `SKILL.md`, then every `references/*.md` file in sorted order,
  for path references of four kinds:
  - `` `docs/….md` ``;
  - `` `docs/<name>/` ``;
  - `](references/<name>.md)`;
  - a bare `docs/….md` at the start of the text or after whitespace.
- It records a missing target as an error for the first three kinds and as
  a warning for the fourth. It counts every reference it checks in
  `checked`.
- It then prints informational audits:
  - which curated and index filenames `SKILL.md` mentions;
  - whether each curated reference file has a "Go Deeper" section;
  - line counts against ceilings of 500 for `SKILL.md` and 400 for curated
    files.
- It exits with status 0 exactly when no error was recorded, given that
  repeated reads of a file agree (see `Run.Run` under "## Left out").

The model has these modules:

- `Wrappers`: the `Option` and `Result` types.
- `Text`:
  - the character classes `\w` and `\s`;
  - substring search (`in`) and `lower()`;
  - line splitting (`splitlines`).
- `Order`: Python's string order and `sorted` over a set of file names.
- `Patterns`: the four regular expressions.
  - Each one is written once as a declarative predicate (`IsMatch`) and
    once as a matcher that tries one index (`MatchAt`).
  - `re.finditer` is modelled as a leftmost, non-overlapping scan
    (`FindIter`).
  - The scan is proved to be the only list of matches that meets
    `finditer`'s promise.
- `Validation`: the scan and its accumulator.
  - The file system is a value, `Tree`. It holds the set of existing
    `docs/` paths, what reading `SKILL.md` gives (`None` when it is
    absent), and a map from each reference file name to what reading it
    gives.
  - The script's globals `errors`, `warnings` and `checked` are the fields
    of the class `Validator`.
  - Its methods are `check_paths_in_file`, the loop of each pattern, and
    the top-level scan. Each is proved against the pure log it must
    produce (`FileLog`, `ScanLog`).
- `Consistency`: the consistency checks and the line-count audit, as values
  computed from the `Tree`.
- `Run`: one run of the script. It builds a fresh accumulator, scans, runs
  the audit and decides the exit status.

Two facts about the code shape the model:

- Only pattern 1 (line 35) drops paths containing `{`. Pattern 2's
  character class cannot capture a `{`, so filtering it too would change
  nothing (`Patterns.DirPathsHaveNoPlaceholder`).
- The audit's reads of `SKILL.md` and the curated files (lines 114, 147
  and 168) have no `try`. A file that exists but cannot be read therefore
  ends the run with an exception (status 1) instead of being recorded and
  skipped. `Run.AuditFailureIsAnError` proves that the scan has then
  already recorded a `Cannot read` error for SKILL.md when it is the
  unreadable file, and for every curated file that exists but cannot be
  read. Given that repeated reads of a file agree, the rule "status 0
  exactly when there are no errors" therefore still holds (`Run.Run`).

## Model

| member | source | states |
|---|---|---|
| Text.ContainsIff | scripts/validate-paths.py:129 | `sub in s` holds exactly when `sub` occurs at some index of `s` |
| Text.UnlinesOfLines | scripts/validate-paths.py:161 | rejoining the lines of a text, each followed by a newline, gives the text back (with a final newline added if it lacked one) |
| Text.LinesOfUnlines | scripts/validate-paths.py:161 | splitting lines that hold no newline, once joined, gives those lines back |
| Text.LineCountOfUnlines | scripts/validate-paths.py:161 | a text made of n newline-terminated lines has line count n |
| Order.BelowTotal | scripts/validate-paths.py:82 | any two names are ordered one way or the other |
| Order.BelowAntisymmetric | scripts/validate-paths.py:82 | names ordered both ways are equal |
| Order.BelowTransitive | scripts/validate-paths.py:82 | the string order is transitive |
| Order.SortedNames | scripts/validate-paths.py:82 | the sorted listing holds exactly the given names, strictly increasing in string order |
| Patterns.FileMatchAt | scripts/validate-paths.py:32 | a match found at index i starts at i and is a match of `` `(docs/[^`]+\.md)` `` |
| Patterns.DirMatchAt | scripts/validate-paths.py:43 | a match found at index i starts at i and is a match of `` `(docs/[\w\-]+/)` `` |
| Patterns.LinkMatchAt | scripts/validate-paths.py:51 | a match found at index i starts at i and is a match of `\]\((references/[\w\-]+\.md)\)` |
| Patterns.BareMatchAt | scripts/validate-paths.py:59 | a match found at index i starts at i and is a match of `(?:^\|\s)(docs/[\w\-/]+\.md)`, where `^` holds only at index 0 |
| Patterns.FileMatchComplete | scripts/validate-paths.py:32 | every match of pattern 1 is the one the matcher finds at its start index |
| Patterns.DirMatchComplete | scripts/validate-paths.py:43 | every match of pattern 2 is the one the matcher finds at its start index |
| Patterns.LinkMatchComplete | scripts/validate-paths.py:51 | every match of pattern 3 is the one the matcher finds at its start index |
| Patterns.BareMatchComplete | scripts/validate-paths.py:59 | every match of pattern 4, through `^` or through a space, is the one the matcher finds at its start index |
| Patterns.MatchAtComplete | scripts/validate-paths.py:32-59 | for each pattern, every match is the one found at its start index |
| Patterns.MatchDeterministic | scripts/validate-paths.py:32-59 | at most one match of a pattern starts at a given index |
| Patterns.FindIter | scripts/validate-paths.py:32-59 | each match the scan yields is the one found at its start, and the matches come in order and do not overlap |
| Patterns.FindIterCovers | scripts/validate-paths.py:32-59 | every index at or after the start where a match begins is covered by some match the scan yields |
| Patterns.ScanIsLeftmost | scripts/validate-paths.py:32-59 | the scan yields only matches, in order, without overlap, and leaves no match uncovered: the promise of `re.finditer` |
| Patterns.LeftmostMatchesUnique | scripts/validate-paths.py:32-59 | only one list of matches keeps that promise, so the scan is the `finditer` result |
| Patterns.Paths | scripts/validate-paths.py:33-60 | every captured group has the shape of its pattern's group |
| Patterns.DirPathsHaveNoPlaceholder | scripts/validate-paths.py:43 | no path captured by pattern 2 contains `{` |
| Patterns.BacktickFileAlone | scripts/validate-paths.py:32 | a text that is one backquoted `docs/….md` path yields exactly that path |
| Validation.Validator.constructor | scripts/validate-paths.py:19-21 | the accumulator starts with no errors, no warnings and `checked` at 0 |
| Validation.Validator.CheckPath | scripts/validate-paths.py:33-64 | a `{` path of pattern 1 changes nothing; any other path adds 1 to `checked` and, if its target is missing, one error (patterns 1-3) or one warning (pattern 4) |
| Validation.Validator.CheckMatches | scripts/validate-paths.py:32-64 | one pattern's loop appends, in order, what checking its kept paths gives, and keeps the earlier entries |
| Validation.Validator.CheckPathsInFile | scripts/validate-paths.py:23-64 | the file's findings are appended after the existing ones: one `Cannot read` error if it is unreadable, else its four patterns' checks in order |
| Validation.Validator.ScanSkill | scripts/validate-paths.py:73-78 | SKILL.md is checked, or the error `SKILL.md not found!` is appended when it is absent |
| Validation.Validator.ScanRefs | scripts/validate-paths.py:82-83 | the listed reference files are checked one after another in the given order |
| Validation.Validator.ScanAll | scripts/validate-paths.py:73-83 | the scan appends SKILL.md's findings, then those of every reference file in sorted order |
| Validation.KeptIff | scripts/validate-paths.py:34-36 | a reference is kept exactly when its pattern captured it and it is not a pattern-1 path holding `{` |
| Validation.ReferencesIff | scripts/validate-paths.py:32-64 | a file's checked references are exactly its captured paths, minus pattern-1 paths holding `{` |
| Validation.KeptAll | scripts/validate-paths.py:43-64 | patterns 2-4 keep every path they capture, in order |
| Validation.ChecksCount | scripts/validate-paths.py:38-64 | every checked reference adds 1 to `checked` and at most one finding |
| Validation.ErrorsIff | scripts/validate-paths.py:39-56 | the errors are exactly the messages (`broken path`, `broken directory`, `broken ref link`) of strict references whose targets are missing |
| Validation.WarningsIff | scripts/validate-paths.py:59-64 | the warnings are exactly the `possibly broken path` messages of pattern-4 references whose targets are missing |
| Validation.PresentTargetsAreSilent | scripts/validate-paths.py:39-64 | references whose targets all exist give no error and no warning |
| Validation.FileLogCounts | scripts/validate-paths.py:25-29 | an unreadable file adds exactly one `Cannot read` error, no warning and no count; a readable one adds one count per reference |
| Validation.CheckedCount | scripts/validate-paths.py:32-64 | a readable file adds to `checked` its pattern-1 matches without `{` plus all matches of patterns 2-4 |
| Validation.RefsLogIncludes | scripts/validate-paths.py:82-83 | every error of a listed reference file is among the errors of the list |
| Validation.ReferenceErrorsReported | scripts/validate-paths.py:82-83 | every error a reference file yields is among the errors of the whole scan |
| Validation.UnreadableReferenceReported | scripts/validate-paths.py:25-29 | an unreadable reference file is reported as `Cannot read` by the scan |
| Validation.SkillMissingStillScans | scripts/validate-paths.py:73-83 | without SKILL.md the first error is `SKILL.md not found!`, the reference files are still scanned, and their findings and counts are all reported |
| Validation.ReadableFileErrors | scripts/validate-paths.py:39-56 | a readable file gives no error exactly when all its strict references resolve |
| Validation.CleanRefsLog | scripts/validate-paths.py:82-83 | readable reference files whose strict references all resolve add no error |
| Validation.ScanCleanIff | scripts/validate-paths.py:73-83 | the scan records no error exactly when SKILL.md and every reference file can be read and every strict reference in them resolves |
| Consistency.Presences | scripts/validate-paths.py:127-139 | one row per listed filename, in order, marked found exactly when the name occurs in SKILL.md's text |
| Consistency.PresenceExample | scripts/validate-paths.py:127-132 | a SKILL.md that names `data-types.md` anywhere but never `forms-and-ui.md` marks the first found and the second missing |
| Consistency.GoDeeperCaseInsensitive | scripts/validate-paths.py:148 | the Go Deeper test passes exactly when the lowercased text contains `go deeper` |
| Consistency.CeilingBoundary | scripts/validate-paths.py:161-170 | a file of n lines is `ok` against a ceiling exactly when n is at most the ceiling: 400 lines pass and 401 do not |
| Consistency.Existing | scripts/validate-paths.py:144-146 | the listed files that exist are exactly those in the reference directory |
| Consistency.DeeperRowsIff | scripts/validate-paths.py:143-149 | the Go Deeper check stops exactly at an unreadable curated file; otherwise it gives one row per existing curated file, in order, saying whether it contains `go deeper` in any case |
| Consistency.LineRowsIff | scripts/validate-paths.py:165-170 | the curated line audit stops exactly at an unreadable file; otherwise it gives one row per existing curated file, in order, `ok` exactly when its line count is at most 400 |
| Consistency.AuditFailsIff | scripts/validate-paths.py:114-170 | the audit ends the run exactly when SKILL.md or a curated file exists but cannot be read |
| Consistency.SkillMissingAudit | scripts/validate-paths.py:114-161 | without SKILL.md the audit reads empty text: SKILL.md has 0 lines, within its ceiling, and every curated and index name is reported missing |
| Run.AuditFailureIsAnError | scripts/validate-paths.py:114-181 | an audit that ends the run only does so after the scan has recorded an error: the `Cannot read` error of SKILL.md when SKILL.md cannot be read, and that of every curated file that exists but cannot be read |
| Text.Contains | scripts/validate-paths.py:129 | Python's `sub in s`, as a left-to-right search; `Text.ContainsIff` states what it decides |
| Text.Lower | scripts/validate-paths.py:148 | `str.lower()` on ASCII letters: same length, only `A`-`Z` change; `Consistency.GoDeeperCaseInsensitive` relies on it |
| Text.Lines | scripts/validate-paths.py:161 | `splitlines()`: no line holds a newline; `Text.UnlinesOfLines` and `Text.LinesOfUnlines` give the round trip |
| Text.LineCount | scripts/validate-paths.py:161 | `len(...splitlines())`; `Text.LineCountOfUnlines` states its value on n lines |
| Order.Below | scripts/validate-paths.py:82 | Python's `<=` on strings, which `sorted` uses; `Order.BelowTotal`, `Order.BelowAntisymmetric` and `Order.BelowTransitive` make it a total order |
| Text.IsWordChar | scripts/validate-paths.py:43-59 | the `\w` of patterns 2-4, restricted to ASCII letters, digits and `_` |
| Text.IsSpace | scripts/validate-paths.py:59 | the `\s` of pattern 4: the code points `str.isspace` accepts |
| Patterns.Scan | scripts/validate-paths.py:32-59 | `re.finditer` of a pattern over a text; `Patterns.ScanIsLeftmost` and `Patterns.LeftmostMatchesUnique` state what it yields |
| Validation.Kept | scripts/validate-paths.py:34-36 | the `{` skip of pattern 1; `Validation.KeptIff` and `Validation.KeptAll` state which captures are kept, in order |
| Validation.References | scripts/validate-paths.py:32-64 | the four pattern loops in order; `Validation.ReferencesIff` states which references a file yields |
| Validation.Checks | scripts/validate-paths.py:37-64 | counting and recording over a file's kept references; `Validation.ChecksCount`, `Validation.ErrorsIff` and `Validation.WarningsIff` state it |
| Validation.CannotRead | scripts/validate-paths.py:28 | the `Cannot read` error text; `Validation.FileLogCounts` states that an unreadable file adds exactly it |
| Validation.ScanOrder | scripts/validate-paths.py:82 | `sorted(refs_dir.glob("*.md"))` over the reference file names; `Order.SortedNames` states it |
| Consistency.CuratedFiles | scripts/validate-paths.py:115-119 | the nine curated reference file names, in source order; `Consistency.Presences`, `Consistency.DeeperRowsIff` and `Consistency.LineRowsIff` range over them |
| Consistency.IndexFiles | scripts/validate-paths.py:120-125 | the ten index file names, in source order; `Consistency.Presences` reports each |
| Consistency.SkillCeiling | scripts/validate-paths.py:162 | SKILL.md's ceiling of 500 lines; `Consistency.SkillMissingAudit` and `Consistency.CeilingBoundary` use it |
| Consistency.CuratedCeiling | scripts/validate-paths.py:169 | the curated files' ceiling of 400 lines; `Consistency.LineRowsIff` states the test against it |
| Validation.Skipped | scripts/validate-paths.py:35 | `"{" in path` for pattern 1 only; `Validation.KeptIff` states which captures it drops |
| Validation.RefPath | scripts/validate-paths.py:82 | `refs_dir / name` as text, which fixes the `Cannot read` message; `Validation.FileLogCounts` and `Validation.UnreadableReferenceReported` use it |
| Patterns.MatchAt | scripts/validate-paths.py:32-59 | one attempt of a pattern at one index; `Patterns.MatchAtComplete` and `Patterns.MatchDeterministic` state it |
| Validation.Exists | scripts/validate-paths.py:39-63 | `full.exists()` for a captured path: a `references/` path exists when its name is a reference file, any other when the tree holds it; `Validation.ErrorsIff` and `Validation.WarningsIff` use it |
| Validation.Message | scripts/validate-paths.py:40-64 | the four finding texts (`broken path`, `broken directory`, `broken ref link`, `possibly broken path`); `Validation.ErrorsIff` and `Validation.WarningsIff` say which list each lands in |
| Validation.Check | scripts/validate-paths.py:38-64 | what one kept reference adds: a count, and an error or a warning when its target is missing; `Validation.ChecksCount` and `Validation.ErrorsIff` state it over a file |
| Validation.FileLog | scripts/validate-paths.py:23-64 | what `check_paths_in_file` adds; `Validation.Validator.CheckPathsInFile` is proved to produce it, and `Validation.FileLogCounts` and `Validation.CheckedCount` state its counts |
| Validation.SkillLog | scripts/validate-paths.py:73-78 | the SKILL.md step; `Validation.Validator.ScanSkill` is proved to produce it |
| Validation.RefsLog | scripts/validate-paths.py:81-83 | the reference files checked in a given order; `Validation.Validator.ScanRefs` is proved to produce it, and `Validation.RefsLogIncludes` keeps every file's errors |
| Validation.ScanLog | scripts/validate-paths.py:73-83 | the whole scan; `Validation.Validator.ScanAll` is proved to produce it, and `Validation.ScanCleanIff` says when it has no error |
| Consistency.SkillContent | scripts/validate-paths.py:114 | SKILL.md's text, the empty text when it is absent, or the read failure; `Consistency.SkillMissingAudit` and `Consistency.AuditFailsIff` use it |
| Consistency.HasGoDeeper | scripts/validate-paths.py:148 | the Go Deeper test; `Consistency.GoDeeperCaseInsensitive` states what it decides |
| Consistency.LineRowOf | scripts/validate-paths.py:161-169 | a line count against a ceiling; `Consistency.CeilingBoundary` states it |
| Consistency.DeeperRows | scripts/validate-paths.py:143-149 | the Go Deeper section of the audit; `Consistency.DeeperRowsIff` states it |
| Consistency.CuratedLineRows | scripts/validate-paths.py:165-170 | the curated files' line audit; `Consistency.LineRowsIff` states it |
| Consistency.Audit | scripts/validate-paths.py:114-170 | the whole audit in source order; `Consistency.AuditFailsIff` and `Consistency.SkillMissingAudit` state it |
| Run.ExitStatus | scripts/validate-paths.py:175-181 | the exit status is 0 or 1, and 0 exactly when there are no errors |
| Run.Run | scripts/validate-paths.py:73-181 | a run leaves the scan's log and the audit's report; the status is 0 or 1, and it is 0 exactly when no error was recorded, which is exactly when every file can be read and every strict reference resolves, whatever the warnings |

## Left out

- File system access is modelled by the `Tree` value:
  - `Path.exists` is membership of the relative path. A
    `references/<name>` path exists when `<name>` is one of the listed
    reference files; any other path exists when it is in the `docs` set.
  - Python would resolve `skill_dir / path`, including `..` components and
    symbolic links; the model compares paths literally.
  - `read_text` becomes what the tree records, one result per file: every
    read of the same file gives the same result.
  - `glob("*.md")` becomes the keys of the reference map, and every listed
    name counts as existing. A dangling symbolic link that `glob` lists but
    `exists()` rejects is not represented.
  - Locating the skill directory from the script's own path (lines 14-17)
    is left out.
- The general regex engine. Only the four fixed patterns are modelled, by
  hand-written matchers that are proved sound and complete against a
  declarative statement of each pattern.
- `\w` is ASCII letters, digits and `_`; Python's Unicode `\w` also accepts
  other letters and digits. `\s` is the set of code points `str.isspace`
  accepts.
- `str.lower()` is modelled for ASCII letters only; Unicode case mappings,
  including those that change length, are left out.
- `str.splitlines()` splits on `\n` only. Python also splits on `\r`,
  `\r\n`, `\v`, `\f`, `\x1c`-`\x1e`, `\x85`, `\u2028` and `\u2029`.
- Python's string order is compared character by character (by code point),
  as Python does; file names that differ only in case are distinct names.
- Console output is left out: banners, headings, column alignment,
  the ✓/✗ glyphs and the report lines (lines 67-111 and 127-170). The
  audit's rows keep the information those lines print, but not their text.
- `sys.exit` is modelled by the returned status only. The text of exception
  messages becomes an opaque `reason` string.
- `Run.Run` and `Run.AuditFailureIsAnError`: both assume that every read of
  a file gives the same result, because the `Tree` records one read result
  per file. The script reads SKILL.md at lines 26 and 114, and each
  existing curated file at lines 26, 147 and 168. If a read fails only in
  the audit, after the scan read the same file, the script exits with
  status 1 and an empty `errors` list. The model cannot express that run.
- `Run.Run`: a file that `glob` lists but `exists()` rejects (a dangling
  symbolic link) would give a `broken ref link` error and be skipped by the
  audit. The model treats every listed name as existing, so it records no
  such error, and it makes the audit fail when the name is curated.
- `Run.Run`: when the audit raises, the rows it printed before the
  exception are not kept, because the audit result is then only the
  failure.

## Findings

None.
