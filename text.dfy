/**
 * The few pieces of Python's `str` that the aggregator relies on, over
 * `string` (a sequence of code points): `isspace`, `strip`, `startswith`,
 * `in`, `find`, `rfind`, `split(sep)[0]` and `[1]`, `splitlines`, `join`,
 * `replace` and ASCII `lower`.
 */
module Text {
  import Wrappers

  /** `c.isspace()`: the code points Python treats as white space. */
  predicate IsSpace(c: char) {
    var n := c as int;
    (9 <= n <= 13) || (0x1c <= n <= 0x20) || n == 0x85 || n == 0xa0 || n == 0x1680
    || (0x2000 <= n <= 0x200a) || n == 0x2028 || n == 0x2029 || n == 0x202f
    || n == 0x205f || n == 0x3000
  }

  /** The line boundaries of `str.splitlines` (`\r\n` counts as one boundary). */
  predicate IsLineBreak(c: char) {
    var n := c as int;
    (10 <= n <= 13) || (0x1c <= n <= 0x1e) || n == 0x85 || n == 0x2028 || n == 0x2029
  }

  lemma LineBreakIsSpace(c: char)
    requires IsLineBreak(c)
    ensures IsSpace(c)
  {
  }

  /** `s.lstrip()` */
  function LStrip(s: string): (r: string)
    ensures |r| <= |s|
    ensures r == [] || !IsSpace(r[0])
    ensures forall i :: 0 <= i < |s| - |r| ==> IsSpace(s[i])
  {
    if s != [] && IsSpace(s[0]) then LStrip(s[1..]) else s
  }

  /** `s.rstrip()` */
  function RStrip(s: string): (r: string)
    ensures |r| <= |s|
    ensures r == [] || !IsSpace(r[|r| - 1])
    ensures forall i :: |r| <= i < |s| ==> IsSpace(s[i])
  {
    if s != [] && IsSpace(s[|s| - 1]) then RStrip(s[..|s| - 1]) else s
  }

  /** What `lstrip` keeps is a suffix of `s`. */
  lemma {:induction false} LStripSuffix(s: string)
    ensures LStrip(s) == s[|s| - |LStrip(s)|..]
  {
    if s != [] && IsSpace(s[0]) {
      LStripSuffix(s[1..]);
    }
  }

  /** What `rstrip` keeps is a prefix of `s`. */
  lemma {:induction false} RStripPrefix(s: string)
    ensures RStrip(s) == s[..|RStrip(s)|]
  {
    if s != [] && IsSpace(s[|s| - 1]) {
      RStripPrefix(s[..|s| - 1]);
    }
  }

  /** `s.strip()`: `s` without its leading and trailing white space. */
  function Strip(s: string): (r: string)
    ensures r == [] || (!IsSpace(r[0]) && !IsSpace(r[|r| - 1]))
    ensures |r| <= |s|
  {
    var l := LStrip(s);
    RStripPrefix(l);
    RStrip(l)
  }

  /** The stripped string is the slice of `s` left after its leading white space. */
  lemma StripSlice(s: string)
    ensures OccursAt(s, Strip(s), |s| - |LStrip(s)|)
  {
    var l := LStrip(s);
    var r := RStrip(l);
    LStripSuffix(s);
    RStripPrefix(l);
    assert r == s[|s| - |l|..][..|r|];
    assert s[|s| - |l|..][..|r|] == s[|s| - |l|..|s| - |l| + |r|];
  }

  /** No white space at either end. */
  predicate IsStripped(s: string) {
    s == [] || (!IsSpace(s[0]) && !IsSpace(s[|s| - 1]))
  }

  lemma StripStripped(s: string)
    requires IsStripped(s)
    ensures Strip(s) == s
  {
  }

  lemma StripIdempotent(s: string)
    ensures Strip(Strip(s)) == Strip(s)
  {
    StripStripped(Strip(s));
  }

  /** A character of a slice is a character of the whole. */
  lemma InSlice<T>(x: T, s: seq<T>, i: int, j: int)
    requires 0 <= i <= j <= |s| && x in s[i..j]
    ensures x in s
  {
    var k :| i <= k < j && s[k] == x;
  }

  lemma StripSubset(c: char, s: string)
    requires c in Strip(s)
    ensures c in s
  {
    var i := |s| - |LStrip(s)|;
    StripSlice(s);
    InSlice(c, s, i, i + |Strip(s)|);
  }

  /** `s.startswith(p)` */
  predicate StartsWith(s: string, p: string) {
    |p| <= |s| && s[..|p|] == p
  }

  /** `t` occurs in `s` at position `i`. */
  predicate OccursAt(s: string, t: string, i: int) {
    0 <= i && i + |t| <= |s| && s[i..i + |t|] == t
  }

  /** `s.find(t)`: the first position where `t` occurs in `s`, or None. */
  function Find(s: string, t: string): (r: Wrappers.Option<nat>)
    ensures r.Some? ==> OccursAt(s, t, r.value) && forall j :: 0 <= j < r.value ==> !OccursAt(s, t, j)
    ensures r.None? ==> forall j :: 0 <= j <= |s| ==> !OccursAt(s, t, j)
    decreases |s|
  {
    if StartsWith(s, t) then Wrappers.Some(0)
    else if s == [] then Wrappers.None
    else
      match Find(s[1..], t)
      case None =>
        assert forall j :: 1 <= j <= |s| ==> (OccursAt(s, t, j) <==> OccursAt(s[1..], t, j - 1));
        Wrappers.None
      case Some(k) =>
        assert forall j :: 1 <= j <= |s| ==> (OccursAt(s, t, j) <==> OccursAt(s[1..], t, j - 1));
        Wrappers.Some(k + 1)
  }

  /** `t in s` */
  predicate Contains(s: string, t: string) {
    Find(s, t).Some?
  }

  lemma ContainsAt(s: string, t: string, i: int)
    requires OccursAt(s, t, i)
    ensures Contains(s, t)
  {
  }

  /** `c in s` for a single character, as Python tests it. */
  lemma ContainsChar(s: string, c: char)
    ensures Contains(s, [c]) <==> c in s
  {
    if c in s {
      var i :| 0 <= i < |s| && s[i] == c;
      assert OccursAt(s, [c], i);
    }
    if Contains(s, [c]) {
      var k := Find(s, [c]).value;
      assert s[k..k + 1] == [c];
      assert s[k] == c;
    }
  }

  /** First index of `c` in `s`, or `|s|` when `c` does not occur. */
  function IndexOf(s: string, c: char): (r: nat)
    ensures r <= |s| && c !in s[..r] && (r < |s| ==> s[r] == c)
  {
    if s == [] then 0
    else if s[0] == c then 0
    else 1 + IndexOf(s[1..], c)
  }

  /** Last index of `c` in `s`, or None. */
  function LastIndexOf(s: string, c: char): (r: Wrappers.Option<nat>)
    ensures r.Some? ==> r.value < |s| && s[r.value] == c && c !in s[r.value + 1..]
    ensures r.None? ==> c !in s
  {
    if s == [] then Wrappers.None
    else if s[|s| - 1] == c then Wrappers.Some(|s| - 1)
    else
      var r := LastIndexOf(s[..|s| - 1], c);
      assert s == s[..|s| - 1] + [s[|s| - 1]];
      r
  }

  /** `s.split(sep)[0]`: the text before the first `sep`, or all of `s`. */
  function FirstField(s: string, sep: char): string {
    s[..IndexOf(s, sep)]
  }

  /** `s.split(sep)[1]`: the text between the first and the second `sep`. */
  function SecondField(s: string, sep: char): string
    requires sep in s
  {
    var rest := s[IndexOf(s, sep) + 1..];
    rest[..IndexOf(rest, sep)]
  }

  /** Where the first line of `s` ends and where the next one starts. */
  function LineEnd(s: string): (r: (nat, nat))
    requires s != []
    ensures r.0 <= |s| && r.0 < r.1 <= |s| + 1
    ensures forall i :: 0 <= i < r.0 ==> !IsLineBreak(s[i])
    ensures r.0 < |s| ==> IsLineBreak(s[r.0]) && r.1 <= |s|
    ensures r.0 == |s| ==> r.1 == |s| + 1
    ensures r.0 < |s| ==> r.1 == r.0 + (if s[r.0] == '\r' && r.0 + 1 < |s| && s[r.0 + 1] == '\n' then 2 else 1)
  {
    if IsLineBreak(s[0]) then
      (0, if s[0] == '\r' && |s| >= 2 && s[1] == '\n' then 2 else 1)
    else if |s| == 1 then (1, 2)
    else var t := LineEnd(s[1..]); (t.0 + 1, t.1 + 1)
  }

  /** `s.splitlines()`: the lines of `s` without their line boundaries. */
  function SplitLines(s: string): (r: seq<string>)
    ensures forall k, i :: 0 <= k < |r| && 0 <= i < |r[k]| ==> !IsLineBreak(r[k][i])
    decreases |s|
  {
    if s == [] then []
    else
      var e := LineEnd(s);
      if e.0 == |s| then [s] else [s[..e.0]] + SplitLines(s[e.1..])
  }

  /** `sep.join(ls)` */
  function Join(ls: seq<string>, sep: string): string {
    if ls == [] then []
    else if |ls| == 1 then ls[0]
    else ls[0] + sep + Join(ls[1..], sep)
  }

  lemma JoinCons(a: string, ls: seq<string>, sep: string)
    requires ls != []
    ensures Join([a] + ls, sep) == a + sep + Join(ls, sep)
  {
    assert ([a] + ls)[1..] == ls;
  }

  /** A lone `\n` at `k` with no boundary before it ends the first line. */
  lemma LineEndAt(s: string, k: nat)
    requires k < |s| && s[k] == '\n' && forall i :: 0 <= i < k ==> !IsLineBreak(s[i])
    ensures LineEnd(s) == (k, k + 1)
  {
    assert IsLineBreak(s[k]);
  }

  lemma SplitLinesFirst(s: string, k: nat)
    requires k < |s| && LineEnd(s) == (k, k + 1)
    ensures SplitLines(s) == [s[..k]] + SplitLines(s[k + 1..])
  {
  }

  lemma SplitAtNewline(s: string, k: nat)
    requires k < |s| && s[k] == '\n'
    ensures s == s[..k] + "\n" + s[k + 1..]
  {
    assert s[..k] + "\n" + s[k + 1..] == s[..k] + s[k..];
  }

  /** The text without its one final `\n`. */
  function DropFinalNewline(s: string): string {
    if s != [] && s[|s| - 1] == '\n' then s[..|s| - 1] else s
  }

  lemma DropFinalNewlineAfter(line: string, rest: string)
    requires rest != []
    ensures line + "\n" + DropFinalNewline(rest) == DropFinalNewline(line + "\n" + rest)
  {
    var s := line + "\n" + rest;
    assert rest[|rest| - 1] == s[|s| - 1];
    if s[|s| - 1] == '\n' {
      assert s[..|s| - 1] == line + "\n" + rest[..|rest| - 1];
    }
  }

  /**
   * In a text whose only line boundary is `\n`, the lines joined with `\n`
   * give the text back, without its one final `\n`.
   */
  lemma {:induction false} SplitLinesJoin(s: string)
    requires forall i :: 0 <= i < |s| && IsLineBreak(s[i]) ==> s[i] == '\n'
    ensures Join(SplitLines(s), "\n") == if s != [] && s[|s| - 1] == '\n' then s[..|s| - 1] else s
    decreases |s|
  {
    if s != [] {
      var k := LineEnd(s).0;
      if k < |s| {
        LineEndAt(s, k);
        SplitLinesFirst(s, k);
        SplitAtNewline(s, k);
        var line, rest := s[..k], s[k + 1..];
        SplitLinesJoin(rest);
        if rest == [] {
          assert SplitLines(s) == [line];
        } else {
          JoinCons(line, SplitLines(rest), "\n");
          DropFinalNewlineAfter(line, rest);
        }
      }
    }
  }

  /** `s.replace(old, new, 1)` */
  function ReplaceFirst(s: string, pat: string, rep: string): (r: string)
    ensures !Contains(s, pat) ==> r == s
    ensures Contains(s, pat) ==> |r| == |s| - |pat| + |rep|
  {
    match Find(s, pat)
    case None => s
    case Some(i) => s[..i] + rep + s[i + |pat|..]
  }

  /** `s.replace(pat, rep)`: every non-overlapping occurrence of `pat`, left to right. */
  function ReplaceAll(s: string, pat: string, rep: string): (r: string)
    requires pat != []
    ensures |rep| <= |pat| ==> |r| <= |s|
    decreases |s|
  {
    if s == [] then []
    else if StartsWith(s, pat) then rep + ReplaceAll(s[|pat|..], pat, rep)
    else [s[0]] + ReplaceAll(s[1..], pat, rep)
  }

  /** ASCII `lower()` of one character. */
  function LowerChar(c: char): char {
    if 'A' <= c <= 'Z' then (c as int + 32) as char else c
  }

  /** `s.lower()` restricted to ASCII letters. */
  function Lower(s: string): (r: string)
    ensures |r| == |s| && forall i :: 0 <= i < |s| ==> r[i] == LowerChar(s[i])
  {
    if s == [] then [] else [LowerChar(s[0])] + Lower(s[1..])
  }
}
