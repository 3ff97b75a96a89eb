/**
 * Character classes and string operations the validator relies on: the
 * `\w` and `\s` classes of Python's regular expressions, substring search
 * (`sub in s`), lower-casing and `str.splitlines`.
 */
module Text {
  import opened Wrappers

  /** Python's `\w`, restricted to ASCII: letters, digits and underscore. */
  predicate IsWordChar(c: char) {
    'a' <= c <= 'z' || 'A' <= c <= 'Z' || '0' <= c <= '9' || c == '_'
  }

  /** Python's `\s` on `str` patterns: the code points for which `str.isspace` holds. */
  predicate IsSpace(c: char) {
    var n := c as int;
    n == 0x20 || 0x09 <= n <= 0x0D || 0x1C <= n <= 0x1F || n == 0x85 || n == 0xA0 ||
    n == 0x1680 || 0x2000 <= n <= 0x200A || n == 0x2028 || n == 0x2029 ||
    n == 0x202F || n == 0x205F || n == 0x3000
  }

  /** The bracket classes `[\w\-]` and `[\w\-/]` of the path patterns. */
  datatype CharClass = WordOrHyphen | WordHyphenOrSlash

  predicate InClass(cl: CharClass, c: char) {
    IsWordChar(c) || c == '-' || (cl == WordHyphenOrSlash && c == '/')
  }

  /** `p` occurs in `s` starting at index `i`. */
  predicate PrefixAt(s: string, i: nat, p: string) {
    i + |p| <= |s| && s[i..i + |p|] == p
  }

  /** The first index at or after `from` that holds `c`, if any. */
  function FindChar(s: string, c: char, from: nat): (r: Option<nat>)
    requires from <= |s|
    ensures r.Some? ==> from <= r.value < |s| && s[r.value] == c
    ensures r.Some? ==> forall j | from <= j < r.value :: s[j] != c
    ensures r.None? ==> forall j | from <= j < |s| :: s[j] != c
    decreases |s| - from
  {
    if from == |s| then None
    else if s[from] == c then Some(from)
    else FindChar(s, c, from + 1)
  }

  /** Where a greedy `cl+`-style run starting at `from` stops: the first index not in the class. */
  function RunEnd(cl: CharClass, s: string, from: nat): (r: nat)
    requires from <= |s|
    ensures from <= r <= |s|
    ensures forall j | from <= j < r :: InClass(cl, s[j])
    ensures r == |s| || !InClass(cl, s[r])
    decreases |s| - from
  {
    if from < |s| && InClass(cl, s[from]) then RunEnd(cl, s, from + 1) else from
  }

  /** A run that stops where the class stops is the one `RunEnd` finds. */
  lemma RunEndIs(cl: CharClass, s: string, from: nat, to: nat)
    requires from <= to <= |s|
    requires forall j | from <= j < to :: InClass(cl, s[j])
    requires to == |s| || !InClass(cl, s[to])
    ensures RunEnd(cl, s, from) == to
  {
  }

  /** The indices at which `sub` occurs in `s`, stated without search. */
  ghost predicate OccursAt(s: string, sub: string, i: int) {
    0 <= i && i + |sub| <= |s| && s[i..i + |sub|] == sub
  }

  /** Python's `sub in s`: a left-to-right search for `sub`. */
  function Contains(s: string, sub: string): bool
    decreases |s|
  {
    if |sub| > |s| then false
    else if s[..|sub|] == sub then true
    else Contains(s[1..], sub)
  }

  /** The search finds `sub` exactly when it occurs somewhere in `s`. */
  lemma {:induction false} ContainsIff(s: string, sub: string)
    ensures Contains(s, sub) <==> exists i :: OccursAt(s, sub, i)
    decreases |s|
  {
    if |sub| > |s| {
      assert forall i :: !OccursAt(s, sub, i);
    } else if s[..|sub|] == sub {
      assert OccursAt(s, sub, 0);
    } else {
      ContainsIff(s[1..], sub);
      if Contains(s, sub) {
        var i :| OccursAt(s[1..], sub, i);
        assert s[i + 1..i + 1 + |sub|] == s[1..][i..i + |sub|];
        assert OccursAt(s, sub, i + 1);
      } else {
        forall i | OccursAt(s, sub, i) ensures false {
          if i > 0 {
            assert s[1..][i - 1..i - 1 + |sub|] == s[i..i + |sub|];
            assert OccursAt(s[1..], sub, i - 1);
          }
        }
      }
    }
  }

  /** `str.lower` on one character, restricted to ASCII letters. */
  function LowerChar(c: char): (r: char)
    ensures 'A' <= c <= 'Z' ==> r as int == c as int + 32
    ensures !('A' <= c <= 'Z') ==> r == c
  {
    if 'A' <= c <= 'Z' then (c as int + 32) as char else c
  }

  /** `str.lower`, character by character. */
  function Lower(s: string): (r: string)
    ensures |r| == |s|
  {
    seq(|s|, i requires 0 <= i < |s| => LowerChar(s[i]))
  }

  /** `str.splitlines` for text whose only line break is `\n`. */
  function Lines(s: string): (ls: seq<string>)
    ensures forall j | 0 <= j < |ls| :: '\n' !in ls[j]
    decreases |s|
  {
    if s == [] then []
    else match FindChar(s, '\n', 0)
      case None => [s]
      case Some(j) => [s[..j]] + Lines(s[j + 1..])
  }

  /** The text a sequence of lines stands for, each line followed by `\n`. */
  function Unlines(ls: seq<string>): string {
    if ls == [] then [] else ls[0] + "\n" + Unlines(ls[1..])
  }

  /** `len(s.splitlines())`. */
  function LineCount(s: string): nat {
    |Lines(s)|
  }

  /** Splitting and rejoining gives the text back, with a final `\n` added when it lacked one. */
  lemma {:induction false} UnlinesOfLines(s: string)
    ensures Unlines(Lines(s)) == if s == [] || s[|s| - 1] == '\n' then s else s + "\n"
    decreases |s|
  {
    if s != [] {
      match FindChar(s, '\n', 0)
      case None =>
        assert s[|s| - 1] != '\n';
      case Some(j) =>
        UnlinesOfLines(s[j + 1..]);
        UnlinesCons(s, j);
        JoinLine(s[..j], s[j + 1..], Unlines(Lines(s[j + 1..])));
        assert s == s[..j] + "\n" + s[j + 1..];
    }
  }

  lemma UnlinesCons(s: string, j: nat)
    requires j < |s| && FindChar(s, '\n', 0) == Some(j)
    ensures Unlines(Lines(s)) == s[..j] + "\n" + Unlines(Lines(s[j + 1..]))
  {
    var ls := Lines(s[j + 1..]);
    assert Lines(s) == [s[..j]] + ls;
    assert ([s[..j]] + ls)[1..] == ls;
  }

  lemma JoinLine(line: string, rest: string, u: string)
    requires u == if rest == [] || rest[|rest| - 1] == '\n' then rest else rest + "\n"
    ensures var s := line + "\n" + rest;
      line + "\n" + u == if s[|s| - 1] == '\n' then s else s + "\n"
  {
    var s := line + "\n" + rest;
    if rest != [] {
      assert s[|s| - 1] == rest[|rest| - 1];
      assert line + "\n" + (rest + "\n") == s + "\n";
    }
  }

  /** Joining lines free of `\n` and splitting again gives the same lines. */
  lemma {:induction false} LinesOfUnlines(ls: seq<string>)
    requires forall j | 0 <= j < |ls| :: '\n' !in ls[j]
    ensures Lines(Unlines(ls)) == ls
  {
    if ls != [] {
      var s := Unlines(ls);
      var rest := Unlines(ls[1..]);
      assert s == ls[0] + "\n" + rest;
      assert s[|ls[0]|] == '\n';
      forall j | 0 <= j < |ls[0]| ensures s[j] != '\n' {
        assert s[j] == ls[0][j];
      }
      assert FindChar(s, '\n', 0) == Some(|ls[0]|);
      assert s[..|ls[0]|] == ls[0];
      assert s[|ls[0]| + 1..] == rest;
      LinesOfUnlines(ls[1..]);
    }
  }

  /** A text made of `n` `\n`-terminated lines has line count `n`. */
  lemma LineCountOfUnlines(ls: seq<string>)
    requires forall j | 0 <= j < |ls| :: '\n' !in ls[j]
    ensures LineCount(Unlines(ls)) == |ls|
  {
    LinesOfUnlines(ls);
  }
}
