/**
 * The four path-reference patterns of `check_paths_in_file` and the scan
 * `re.finditer` makes with each: the leftmost match at or after the current
 * position, then on from the end of that match.
 *
 *   BacktickFile  `(docs/[^`]+\.md)`
 *   BacktickDir   `(docs/[\w\-]+/)`
 *   RefLink       \]\((references/[\w\-]+\.md)\)
 *   BareMention   (?:^|\s)(docs/[\w\-/]+\.md)
 */
module Patterns {
  import opened Wrappers
  import opened Text

  datatype Kind = BacktickFile | BacktickDir | RefLink | BareMention {
    /** Misses of the three strict patterns are errors; misses of the loose one are warnings. */
    predicate Strict() { !BareMention? }
  }

  /** One match: the text `s[start..end]` it consumes and the path its group captures. */
  datatype Match = Match(start: nat, path: string, end: nat)

  /** Group of pattern 1: `docs/`, at least one character other than a backtick, `.md`. */
  predicate FileShape(p: string) {
    |p| >= 9 && p[..5] == "docs/" && p[|p| - 3..] == ".md" &&
    forall j | 0 <= j < |p| :: p[j] != '`'
  }

  /** Group of pattern 2: `docs/`, one or more word or hyphen characters, `/`. */
  predicate DirShape(p: string) {
    |p| >= 7 && p[..5] == "docs/" && p[|p| - 1] == '/' &&
    forall j | 5 <= j < |p| - 1 :: InClass(WordOrHyphen, p[j])
  }

  /** Group of pattern 3: `references/`, one or more word or hyphen characters, `.md`. */
  predicate LinkShape(p: string) {
    |p| >= 15 && p[..11] == "references/" && p[|p| - 3..] == ".md" &&
    forall j | 11 <= j < |p| - 3 :: InClass(WordOrHyphen, p[j])
  }

  /** Group of pattern 4: `docs/`, one or more word, hyphen or slash characters, `.md`. */
  predicate BareShape(p: string) {
    |p| >= 9 && p[..5] == "docs/" && p[|p| - 3..] == ".md" &&
    forall j | 5 <= j < |p| - 3 :: InClass(WordHyphenOrSlash, p[j])
  }

  /** The regular expression of `k` matches `s[m.start..m.end]` with group `m.path`. */
  ghost predicate IsMatch(k: Kind, s: string, m: Match) {
    match k
    case BacktickFile => IsFileMatch(s, m)
    case BacktickDir => IsDirMatch(s, m)
    case RefLink => IsLinkMatch(s, m)
    case BareMention => IsBareMatch(s, m)
  }

  ghost predicate IsFileMatch(s: string, m: Match) {
    m.start < m.end <= |s| && m.end == m.start + |m.path| + 2 &&
    s[m.start] == '`' && s[m.end - 1] == '`' &&
    s[m.start + 1..m.end - 1] == m.path && FileShape(m.path)
  }

  ghost predicate IsDirMatch(s: string, m: Match) {
    m.start < m.end <= |s| && m.end == m.start + |m.path| + 2 &&
    s[m.start] == '`' && s[m.end - 1] == '`' &&
    s[m.start + 1..m.end - 1] == m.path && DirShape(m.path)
  }

  ghost predicate IsLinkMatch(s: string, m: Match) {
    m.start < m.end <= |s| && m.end == m.start + |m.path| + 3 &&
    s[m.start] == ']' && s[m.start + 1] == '(' && s[m.end - 1] == ')' &&
    s[m.start + 2..m.end - 1] == m.path && LinkShape(m.path)
  }

  /** `^` is tried before `\s`; without MULTILINE it holds only at the start of the text. */
  ghost predicate IsBareMatch(s: string, m: Match) {
    m.start < m.end <= |s| && BareShape(m.path) &&
    ((m.start == 0 && m.end == |m.path| && s[..m.end] == m.path) ||
     (IsSpace(s[m.start]) && m.end == m.start + 1 + |m.path| && s[m.start + 1..m.end] == m.path))
  }

  /** Where a bare `docs/...md` group starting at `g` ends, if one starts there. */
  function BareGroupEnd(s: string, g: nat): (r: Option<nat>)
    requires g <= |s|
    ensures r.Some? ==> g < r.value <= |s| && BareShape(s[g..r.value])
  {
    if PrefixAt(s, g, "docs/") then
      var j := RunEnd(WordHyphenOrSlash, s, g + 5);
      if j > g + 5 && PrefixAt(s, j, ".md") then
        assert s[g..j + 3][..5] == s[g..g + 5];
        assert s[g..j + 3][j + 3 - g - 3..] == s[j..j + 3];
        Some(j + 3)
      else None
    else None
  }

  function FileMatchAt(s: string, i: nat): (r: Option<Match>)
    requires i <= |s|
    ensures r.Some? ==> r.value.start == i && IsFileMatch(s, r.value)
  {
    if i < |s| && s[i] == '`' && PrefixAt(s, i + 1, "docs/") then
      match FindChar(s, '`', i + 6)
      case Some(close) =>
        var path := s[i + 1..close];
        if |path| >= 9 && path[|path| - 3..] == ".md" then
          FileMatchSound(s, i, close);
          Some(Match(i, path, close + 1))
        else None
      case None => None
    else None
  }

  function DirMatchAt(s: string, i: nat): (r: Option<Match>)
    requires i <= |s|
    ensures r.Some? ==> r.value.start == i && IsDirMatch(s, r.value)
  {
    if i < |s| && s[i] == '`' && PrefixAt(s, i + 1, "docs/") then
      var j := RunEnd(WordOrHyphen, s, i + 6);
      if j > i + 6 && j + 1 < |s| && s[j] == '/' && s[j + 1] == '`' then
        var path := s[i + 1..j + 1];
        assert path[..5] == s[i + 1..i + 6];
        assert forall q | 5 <= q < |path| - 1 :: path[q] == s[i + 1 + q];
        Some(Match(i, path, j + 2))
      else None
    else None
  }

  function LinkMatchAt(s: string, i: nat): (r: Option<Match>)
    requires i <= |s|
    ensures r.Some? ==> r.value.start == i && IsLinkMatch(s, r.value)
  {
    if i + 1 < |s| && s[i] == ']' && s[i + 1] == '(' && PrefixAt(s, i + 2, "references/") then
      var j := RunEnd(WordOrHyphen, s, i + 13);
      if j > i + 13 && PrefixAt(s, j, ".md") && j + 3 < |s| && s[j + 3] == ')' then
        LinkMatchSound(s, i, j);
        Some(Match(i, s[i + 2..j + 3], j + 4))
      else None
    else None
  }

  /** A backtick, `docs/`, a backtick-free run up to the next backtick at `close`, ending in `.md`, is a match of pattern 1. */
  lemma FileMatchSound(s: string, i: nat, close: nat)
    requires i + 6 <= close < |s| && s[i] == '`' && PrefixAt(s, i + 1, "docs/") && s[close] == '`'
    requires forall q | i + 6 <= q < close :: s[q] != '`'
    requires close - i - 1 >= 9 && s[close - 3..close] == ".md"
    ensures IsFileMatch(s, Match(i, s[i + 1..close], close + 1))
  {
    var path := s[i + 1..close];
    assert path[..5] == s[i + 1..i + 6];
    assert path[|path| - 3..] == s[close - 3..close];
    forall q | 0 <= q < |path| ensures path[q] != '`' {
      assert path[q] == s[i + 1 + q];
    }
  }

  /** `](references/`, a name run ending at `j`, then `.md)`, is a match of pattern 3. */
  lemma LinkMatchSound(s: string, i: nat, j: nat)
    requires i + 13 < j && j + 3 < |s| && s[i] == ']' && s[i + 1] == '(' && PrefixAt(s, i + 2, "references/")
    requires forall q | i + 13 <= q < j :: InClass(WordOrHyphen, s[q])
    requires PrefixAt(s, j, ".md") && s[j + 3] == ')'
    ensures IsLinkMatch(s, Match(i, s[i + 2..j + 3], j + 4))
  {
    var path := s[i + 2..j + 3];
    assert path[..11] == s[i + 2..i + 13];
    assert path[|path| - 3..] == s[j..j + 3];
    forall q | 11 <= q < |path| - 3 ensures InClass(WordOrHyphen, path[q]) {
      assert path[q] == s[i + 2 + q];
    }
  }

  function BareMatchAt(s: string, i: nat): (r: Option<Match>)
    requires i <= |s|
    ensures r.Some? ==> r.value.start == i && IsBareMatch(s, r.value)
  {
    var atStart := if i == 0 then BareGroupEnd(s, 0) else None;
    if atStart.Some? then
      Some(Match(i, s[..atStart.value], atStart.value))
    else if i < |s| && IsSpace(s[i]) then
      match BareGroupEnd(s, i + 1)
      case Some(e) => Some(Match(i, s[i + 1..e], e))
      case None => None
    else None
  }

  /** The match of `k` that starts at index `i`, if any: what the regex engine finds when it tries `i`. */
  function MatchAt(k: Kind, s: string, i: nat): (r: Option<Match>)
    requires i <= |s|
    ensures r.Some? ==> r.value.start == i && IsMatch(k, s, r.value)
  {
    match k
    case BacktickFile => FileMatchAt(s, i)
    case BacktickDir => DirMatchAt(s, i)
    case RefLink => LinkMatchAt(s, i)
    case BareMention => BareMatchAt(s, i)
  }

  lemma FileMatchComplete(s: string, m: Match)
    requires IsFileMatch(s, m)
    ensures FileMatchAt(s, m.start) == Some(m)
  {
    var i, close := m.start, m.end - 1;
    assert s[i + 1..i + 6] == m.path[..5];
    forall j | i + 6 <= j < close ensures s[j] != '`' {
      assert s[j] == m.path[j - i - 1];
    }
    assert FindChar(s, '`', i + 6) == Some(close);
    assert PrefixAt(s, i + 1, "docs/");
    assert s[i + 1..close] == m.path;
    FileMatchAtIs(s, i, close);
  }

  /**
   * Unfolding step: what `FileMatchAt` returns once each of its tests is known to pass. Kept apart from
   * the completeness proof only to keep the solver's work on that proof small.
   */
  lemma FileMatchAtIs(s: string, i: nat, close: nat)
    requires i < |s| && s[i] == '`' && PrefixAt(s, i + 1, "docs/")
    requires i + 6 <= close && FindChar(s, '`', i + 6) == Some(close)
    requires var path := s[i + 1..close]; |path| >= 9 && path[|path| - 3..] == ".md"
    ensures FileMatchAt(s, i) == Some(Match(i, s[i + 1..close], close + 1))
  {
  }

  lemma DirMatchComplete(s: string, m: Match)
    requires IsDirMatch(s, m)
    ensures DirMatchAt(s, m.start) == Some(m)
  {
    DirMatchRun(s, m);
    var i, j := m.start, m.end - 2;
    assert s[i + 1..i + 6] == m.path[..5];
    assert PrefixAt(s, i + 1, "docs/");
    assert j + 1 < |s| && s[j + 1] == '`';
    DirMatchAtIs(s, i, j);
    assert m == Match(i, s[i + 1..j + 1], j + 2);
  }

  /**
   * Unfolding step: what `DirMatchAt` returns once each of its tests is known to pass. Kept apart from
   * the completeness proof only to keep the solver's work on that proof small.
   */
  lemma DirMatchAtIs(s: string, i: nat, j: nat)
    requires i < |s| && s[i] == '`' && PrefixAt(s, i + 1, "docs/")
    requires j > i + 6 && RunEnd(WordOrHyphen, s, i + 6) == j
    requires j + 1 < |s| && s[j] == '/' && s[j + 1] == '`'
    ensures DirMatchAt(s, i) == Some(Match(i, s[i + 1..j + 1], j + 2))
  {
  }

  /** The name run `DirMatchAt` finds, read off a match of pattern 2. */
  lemma DirMatchRun(s: string, m: Match)
    requires IsDirMatch(s, m)
    ensures m.end - 2 > m.start + 6 && RunEnd(WordOrHyphen, s, m.start + 6) == m.end - 2
    ensures s[m.end - 2] == '/'
  {
    var i, slash, p := m.start, m.end - 2, m.path;
    forall j | i + 6 <= j < slash ensures InClass(WordOrHyphen, s[j]) {
      assert s[j] == p[j - i - 1];
    }
    assert s[slash] == p[|p| - 1];
    RunEndIs(WordOrHyphen, s, i + 6, slash);
  }

  /** The fixed parts `LinkMatchAt` tests, read off a match of pattern 3. */
  lemma LinkMatchFixedParts(s: string, m: Match)
    requires IsLinkMatch(s, m)
    ensures m.start + 1 < |s| && s[m.start] == ']' && s[m.start + 1] == '('
    ensures PrefixAt(s, m.start + 2, "references/")
    ensures PrefixAt(s, m.end - 4, ".md") && s[m.end - 1] == ')'
  {
    var i, dot := m.start, m.end - 4;
    assert s[i + 2..i + 13] == m.path[..11];
    assert s[dot..dot + 3] == m.path[|m.path| - 3..];
  }

  /** The name run `LinkMatchAt` finds, read off a match of pattern 3. */
  lemma LinkMatchRun(s: string, m: Match)
    requires IsLinkMatch(s, m)
    ensures m.end - 4 > m.start + 13 && RunEnd(WordOrHyphen, s, m.start + 13) == m.end - 4
  {
    var i, dot, p := m.start, m.end - 4, m.path;
    assert forall q | 0 <= q < |p| :: s[i + 2 + q] == p[q];
    forall j | i + 13 <= j < dot ensures InClass(WordOrHyphen, s[j]) {
      assert s[j] == p[j - i - 2];
    }
    assert s[dot] == p[|p| - 3];
    RunEndIs(WordOrHyphen, s, i + 13, dot);
  }

  lemma LinkMatchComplete(s: string, m: Match)
    requires IsLinkMatch(s, m)
    ensures LinkMatchAt(s, m.start) == Some(m)
  {
    LinkMatchFixedParts(s, m);
    LinkMatchRun(s, m);
    var i, j := m.start, m.end - 4;
    assert j + 3 < |s| && s[j + 3] == ')';
    LinkMatchAtIs(s, i, j);
    assert m == Match(i, s[i + 2..j + 3], j + 4);
  }

  /**
   * Unfolding step: what `LinkMatchAt` returns once each of its tests is known to pass. Kept apart from
   * the completeness proof only to keep the solver's work on that proof small.
   */
  lemma LinkMatchAtIs(s: string, i: nat, j: nat)
    requires i + 1 < |s| && s[i] == ']' && s[i + 1] == '(' && PrefixAt(s, i + 2, "references/")
    requires j > i + 13 && RunEnd(WordOrHyphen, s, i + 13) == j
    requires PrefixAt(s, j, ".md") && j + 3 < |s| && s[j + 3] == ')'
    ensures LinkMatchAt(s, i) == Some(Match(i, s[i + 2..j + 3], j + 4))
  {
  }

  lemma BareGroupComplete(s: string, g: nat, p: string)
    requires g + |p| <= |s| && s[g..g + |p|] == p && BareShape(p)
    ensures BareGroupEnd(s, g) == Some(g + |p|)
  {
    var dot := g + |p| - 3;
    assert s[g..g + 5] == p[..5];
    assert forall q | 0 <= q < |p| :: s[g + q] == p[q];
    forall j | g + 5 <= j < dot ensures InClass(WordHyphenOrSlash, s[j]) {
      assert s[j] == p[j - g];
    }
    assert s[dot] == p[|p| - 3];
    RunEndIs(WordHyphenOrSlash, s, g + 5, dot);
    assert s[dot..dot + 3] == p[|p| - 3..];
  }

  lemma BareMatchComplete(s: string, m: Match)
    requires IsBareMatch(s, m)
    ensures BareMatchAt(s, m.start) == Some(m)
  {
    if m.start == 0 && m.end == |m.path| && s[..m.end] == m.path {
      BareAtStartComplete(s, m);
    } else {
      BareAfterSpaceComplete(s, m);
    }
  }

  lemma BareAtStartComplete(s: string, m: Match)
    requires BareShape(m.path) && m.start == 0 && m.end == |m.path| <= |s| && s[..m.end] == m.path
    ensures BareMatchAt(s, 0) == Some(m)
  {
    BareGroupComplete(s, 0, m.path);
    BareMatchAtStartIs(s, m.end);
    assert m == Match(0, s[..m.end], m.end);
  }

  /**
   * Unfolding step: what `BareMatchAt` returns at index 0 once a group is known to start there. Kept apart from
   * the completeness proof only to keep the solver's work on that proof small.
   */
  lemma BareMatchAtStartIs(s: string, e: nat)
    requires BareGroupEnd(s, 0) == Some(e)
    ensures BareMatchAt(s, 0) == Some(Match(0, s[..e], e))
  {
  }

  /**
   * Unfolding step: what `BareMatchAt` returns after a space once the `^` branch is known to fail. Kept apart from
   * the completeness proof only to keep the solver's work on that proof small.
   */
  lemma BareMatchAfterSpaceIs(s: string, i: nat, e: nat)
    requires i < |s| && IsSpace(s[i]) && BareGroupEnd(s, i).None?
    requires BareGroupEnd(s, i + 1) == Some(e)
    ensures BareMatchAt(s, i) == Some(Match(i, s[i + 1..e], e))
  {
  }

  lemma BareAfterSpaceComplete(s: string, m: Match)
    requires BareShape(m.path) && m.start < |s| && IsSpace(s[m.start])
    requires m.end == m.start + 1 + |m.path| <= |s| && s[m.start + 1..m.end] == m.path
    ensures BareMatchAt(s, m.start) == Some(m)
  {
    BareGroupComplete(s, m.start + 1, m.path);
    NoBareGroupAtSpace(s, m.start);
    BareMatchAfterSpaceIs(s, m.start, m.end);
    assert m == Match(m.start, s[m.start + 1..m.end], m.end);
  }

  /** A group starts with `d`, so none starts on a space. */
  lemma NoBareGroupAtSpace(s: string, i: nat)
    requires i < |s| && IsSpace(s[i])
    ensures BareGroupEnd(s, i).None?
  {
    if PrefixAt(s, i, "docs/") {
      assert false;
    }
  }

  /** Every match of the regular expression is the one the engine finds at its start index. */
  lemma MatchAtComplete(k: Kind, s: string, m: Match)
    requires IsMatch(k, s, m)
    ensures m.start <= |s| && MatchAt(k, s, m.start) == Some(m)
  {
    match k
    case BacktickFile => FileMatchComplete(s, m);
    case BacktickDir => DirMatchComplete(s, m);
    case RefLink => LinkMatchComplete(s, m);
    case BareMention => BareMatchComplete(s, m);
  }

  /** Spans are non-empty and each ends at or before the next one starts. */
  ghost predicate InOrder(ms: seq<Match>) {
    (forall j | 0 <= j < |ms| :: ms[j].start < ms[j].end) &&
    (forall j | 0 <= j < |ms| - 1 :: ms[j].end <= ms[j + 1].start)
  }

  lemma {:induction false} InOrderApart(ms: seq<Match>)
    requires InOrder(ms)
    ensures forall i, j | 0 <= i < j < |ms| :: ms[i].end <= ms[j].start
  {
    if ms != [] {
      InOrderApart(ms[1..]);
      forall j | 1 <= j < |ms| ensures ms[0].end <= ms[j].start {
        if j > 1 {
          assert ms[1..][0] == ms[1] && ms[1..][j - 1] == ms[j];
        }
      }
      forall i, j | 1 <= i < j < |ms| ensures ms[i].end <= ms[j].start {
        assert ms[1..][i - 1] == ms[i] && ms[1..][j - 1] == ms[j];
      }
    }
  }

  /** What the engine finds when it tries each index: `t[i]` is the match starting at `i`, if any. */
  ghost predicate Attempts(t: seq<Option<Match>>) {
    forall i | 0 <= i < |t| :: t[i].Some? ==> t[i].value.start == i < t[i].value.end < |t|
  }

  /** The attempts pattern `k` makes at the indices `0..|s|` of `s`. */
  function AttemptsOf(k: Kind, s: string): (t: seq<Option<Match>>)
    ensures |t| == |s| + 1 && Attempts(t)
  {
    seq(|s| + 1, i requires 0 <= i <= |s| => MatchAt(k, s, i))
  }

  /**
   * The loop of `re.finditer` over a table of attempts: try the current
   * index; on a match, yield it and go on from its end, otherwise go on
   * from the next index.
   */
  function FindIter(t: seq<Option<Match>>, from: nat): (ms: seq<Match>)
    requires Attempts(t) && from <= |t|
    ensures forall j | 0 <= j < |ms| :: from <= ms[j].start < |t| && t[ms[j].start] == Some(ms[j])
    ensures InOrder(ms)
    decreases |t| - from
  {
    if from == |t| then []
    else match t[from]
      case Some(m) => [m] + FindIter(t, m.end)
      case None => FindIter(t, from + 1)
  }

  /** `re.finditer(pattern, s)` from index `from` on. */
  function Scan(k: Kind, s: string, from: nat): (ms: seq<Match>)
    requires from <= |s|
  {
    FindIter(AttemptsOf(k, s), from)
  }

  /** Index `i` lies inside none of the spans of `ms`. */
  ghost predicate Uncovered(ms: seq<Match>, i: int) {
    forall j | 0 <= j < |ms| :: !(ms[j].start <= i < ms[j].end)
  }

  /** Every index at which an attempt succeeds lies inside some span the loop yields. */
  lemma {:induction false} FindIterCovers(t: seq<Option<Match>>, from: nat, i: nat)
    requires Attempts(t) && from <= i < |t| && t[i].Some?
    ensures !Uncovered(FindIter(t, from), i)
    decreases |t| - from
  {
    var ms := FindIter(t, from);
    match t[from]
    case Some(first) =>
      if i >= first.end {
        FindIterCovers(t, first.end, i);
        var rest := FindIter(t, first.end);
        var j :| 0 <= j < |rest| && rest[j].start <= i < rest[j].end;
        assert ms[j + 1] == rest[j];
      } else {
        assert ms[0] == first;
      }
    case None =>
      FindIterCovers(t, from + 1, i);
  }

  /**
   * What `re.finditer` promises, stated without the scan: every listed span
   * is a match, the spans come in order without overlap, and no match of
   * the regular expression starts outside them.
   */
  ghost predicate LeftmostMatches(k: Kind, s: string, from: nat, ms: seq<Match>) {
    (forall j | 0 <= j < |ms| :: from <= ms[j].start && IsMatch(k, s, ms[j])) &&
    InOrder(ms) &&
    (forall m | IsMatch(k, s, m) && from <= m.start :: !Uncovered(ms, m.start))
  }

  lemma ScanIsLeftmost(k: Kind, s: string, from: nat)
    requires from <= |s|
    ensures LeftmostMatches(k, s, from, Scan(k, s, from))
  {
    var t := AttemptsOf(k, s);
    var ms := FindIter(t, from);
    forall j | 0 <= j < |ms| ensures IsMatch(k, s, ms[j]) {
      assert t[ms[j].start] == MatchAt(k, s, ms[j].start);
    }
    forall m | IsMatch(k, s, m) && from <= m.start ensures !Uncovered(ms, m.start) {
      MatchAtComplete(k, s, m);
      assert t[m.start] == MatchAt(k, s, m.start);
      FindIterCovers(t, from, m.start);
    }
  }

  /** At most one match starts at a given index. */
  lemma MatchDeterministic(k: Kind, s: string, m: Match, n: Match)
    requires IsMatch(k, s, m) && IsMatch(k, s, n) && m.start == n.start
    ensures m == n
  {
    MatchAtComplete(k, s, m);
    MatchAtComplete(k, s, n);
  }

  /** The promise of `re.finditer` determines its result: only one list keeps it. */
  lemma {:induction false} LeftmostMatchesUnique(k: Kind, s: string, from: nat, ms: seq<Match>, ns: seq<Match>)
    requires LeftmostMatches(k, s, from, ms) && LeftmostMatches(k, s, from, ns)
    ensures ms == ns
    decreases |ms| + |ns|
  {
    FirstMatchesAgree(k, s, from, ms, ns);
    if ms != [] {
      var first, ms', ns' := ms[0], ms[1..], ns[1..];
      assert LeftmostMatches(k, s, first.end, ms') && LeftmostMatches(k, s, first.end, ns');
      LeftmostMatchesUnique(k, s, first.end, ms', ns');
      ConsEqual(ms, ns);
    }
  }

  lemma ConsEqual(ms: seq<Match>, ns: seq<Match>)
    requires ms != [] && ns != [] && ms[0] == ns[0] && ms[1..] == ns[1..]
    ensures ms == ns
  {
    assert ms == [ms[0]] + ms[1..] && ns == [ns[0]] + ns[1..];
  }

  /** Two lists that keep the promise are empty together, or start with the same match and go on keeping it. */
  lemma FirstMatchesAgree(k: Kind, s: string, from: nat, ms: seq<Match>, ns: seq<Match>)
    requires LeftmostMatches(k, s, from, ms) && LeftmostMatches(k, s, from, ns)
    ensures ms == [] <==> ns == []
    ensures ms != [] ==>
      ms[0] == ns[0] && LeftmostMatches(k, s, ms[0].end, ms[1..]) && LeftmostMatches(k, s, ms[0].end, ns[1..])
  {
    if ms != [] {
      SomeSpanCovers(k, s, from, ns, ms[0]);
    }
    if ns != [] {
      SomeSpanCovers(k, s, from, ms, ns[0]);
    }
    if ms != [] {
      FirstMatchLeftmost(k, s, from, ms, ns[0]);
      FirstMatchLeftmost(k, s, from, ns, ms[0]);
      MatchDeterministic(k, s, ms[0], ns[0]);
      TailLeftmost(k, s, from, ms);
      TailLeftmost(k, s, from, ns);
    }
  }

  /** A match at or after `from` lies inside a listed span, so the list is not empty. */
  lemma SomeSpanCovers(k: Kind, s: string, from: nat, ms: seq<Match>, m: Match)
    requires LeftmostMatches(k, s, from, ms)
    requires IsMatch(k, s, m) && from <= m.start
    ensures ms != []
  {
    assert !Uncovered(ms, m.start);
  }

  /** No match at or after `from` starts before the first listed span. */
  lemma FirstMatchLeftmost(k: Kind, s: string, from: nat, ms: seq<Match>, m: Match)
    requires LeftmostMatches(k, s, from, ms) && ms != []
    requires IsMatch(k, s, m) && from <= m.start
    ensures ms[0].start <= m.start
  {
    InOrderApart(ms);
    assert !Uncovered(ms, m.start);
  }

  lemma TailLeftmost(k: Kind, s: string, from: nat, ms: seq<Match>)
    requires LeftmostMatches(k, s, from, ms) && ms != []
    ensures LeftmostMatches(k, s, ms[0].end, ms[1..])
  {
    var rest := ms[1..];
    InOrderApart(ms);
    assert forall j | 0 <= j < |rest| :: rest[j] == ms[j + 1];
    forall m | IsMatch(k, s, m) && ms[0].end <= m.start ensures !Uncovered(rest, m.start) {
      assert !Uncovered(ms, m.start);
      var j :| 0 <= j < |ms| && ms[j].start <= m.start < ms[j].end;
      assert rest[j - 1] == ms[j];
    }
  }

  /** The shape of the path pattern `k` captures. */
  predicate Shape(k: Kind, p: string) {
    match k
    case BacktickFile => FileShape(p)
    case BacktickDir => DirShape(p)
    case RefLink => LinkShape(p)
    case BareMention => BareShape(p)
  }

  /** The paths pattern `k` captures in `s`, in the order `re.finditer` yields them. */
  function Paths(k: Kind, s: string): (ps: seq<string>)
    ensures forall j | 0 <= j < |ps| :: Shape(k, ps[j])
  {
    var t := AttemptsOf(k, s);
    var ms := FindIter(t, 0);
    assert forall j | 0 <= j < |ms| :: t[ms[j].start] == MatchAt(k, s, ms[j].start);
    seq(|ms|, j requires 0 <= j < |ms| => ms[j].path)
  }

  /** Pattern 2's character class admits no `{`, so it never captures a placeholder path. */
  lemma DirPathsHaveNoPlaceholder(s: string)
    ensures forall p | p in Paths(BacktickDir, s) :: '{' !in p
  {
    var ps := Paths(BacktickDir, s);
    forall j | 0 <= j < |ps| ensures '{' !in ps[j] {
      DirShapeHasNoBrace(ps[j]);
    }
  }

  lemma DirShapeHasNoBrace(p: string)
    requires DirShape(p)
    ensures '{' !in p
  {
    forall q | 0 <= q < |p| ensures p[q] != '{' {
      if q < 5 {
        assert p[q] == p[..5][q];
      }
    }
  }

  /** A text made of one backquoted file path yields that path and nothing else. */
  lemma BacktickFileAlone(p: string)
    requires FileShape(p)
    ensures Paths(BacktickFile, "`" + p + "`") == [p]
  {
    var s := "`" + p + "`";
    var m := Match(0, p, |s|);
    assert s[1..|s| - 1] == p;
    assert IsMatch(BacktickFile, s, m);
    MatchAtComplete(BacktickFile, s, m);
    var t := AttemptsOf(BacktickFile, s);
    assert t[0] == Some(m);
    assert FindIter(t, |s|) == [] by {
      assert t[|s|].None?;
    }
  }
}
