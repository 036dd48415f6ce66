/**
 * The configuration-string converters of iptv.py: `conv_bool`, `conv_list`,
 * `conv_dict` and `clean_inline_comment`.
 */
module Config {
  import opened Wrappers
  import opened Text

  /** `a` equals the lower-case word `w` when case is ignored. */
  predicate SameIgnoringCase(a: string, w: string) {
    |a| == |w| && forall i :: 0 <= i < |a| ==> LowerChar(a[i]) == w[i]
  }

  /** `conv_bool`: "1", "true", "yes" or "on", in any case. */
  function ConvBool(v: string): (r: bool)
    ensures r <==> v == "1" || SameIgnoringCase(v, "true") || SameIgnoringCase(v, "yes")
                   || SameIgnoringCase(v, "on")
    ensures r ==> 1 <= |v| <= 4
  {
    var l := Lower(v);
    assert SameIgnoringCase(v, "true") <==> l == "true";
    assert SameIgnoringCase(v, "yes") <==> l == "yes";
    assert SameIgnoringCase(v, "on") <==> l == "on";
    assert l == "1" <==> v == "1";
    l in ["1", "true", "yes", "on"]
  }

  /** The stripped lines that are not empty, in order. */
  function NonEmptyStripped(ls: seq<string>): (r: seq<string>)
    ensures forall k :: 0 <= k < |r| ==> r[k] != [] && IsStripped(r[k])
    ensures |r| == NonBlankCount(ls)
  {
    if ls == [] then []
    else if Strip(ls[0]) == [] then NonEmptyStripped(ls[1..])
    else [Strip(ls[0])] + NonEmptyStripped(ls[1..])
  }

  /** How many of the lines are not blank once stripped. */
  function NonBlankCount(ls: seq<string>): (c: nat)
    ensures c <= |ls|
  {
    if ls == [] then 0 else (if Strip(ls[0]) == [] then 0 else 1) + NonBlankCount(ls[1..])
  }

  /** The non-blank line `k`, stripped, is the item numbered by the non-blank lines before it. */
  lemma {:induction false} NonEmptyStrippedAt(ls: seq<string>, k: nat)
    requires k < |ls| && Strip(ls[k]) != []
    ensures NonBlankCount(ls[..k]) < |NonEmptyStripped(ls)|
    ensures NonEmptyStripped(ls)[NonBlankCount(ls[..k])] == Strip(ls[k])
  {
    if k == 0 {
      assert ls[..0] == [];
    } else {
      NonEmptyStrippedAt(ls[1..], k - 1);
      assert ls[..k][1..] == ls[1..][..k - 1];
      assert ls[..k][0] == ls[0];
    }
  }

  lemma NonBlankCountCons(ls: seq<string>, k: nat)
    requires k < |ls|
    ensures NonBlankCount(ls[..k + 1]) == (if Strip(ls[0]) == [] then 0 else 1) + NonBlankCount(ls[1..][..k])
  {
    assert ls[..k + 1][1..] == ls[1..][..k];
    assert ls[..k + 1][0] == ls[0];
  }

  /** Every item is some non-blank line `k`, stripped, numbered by the non-blank lines before it. */
  lemma {:induction false} NonEmptyStrippedFrom(ls: seq<string>, j: nat) returns (k: nat)
    requires j < |NonEmptyStripped(ls)|
    ensures k < |ls| && Strip(ls[k]) != [] && NonBlankCount(ls[..k]) == j
    ensures NonEmptyStripped(ls)[j] == Strip(ls[k])
  {
    if Strip(ls[0]) != [] && j == 0 {
      assert ls[..0] == [];
      k := 0;
    } else {
      var j' := if Strip(ls[0]) == [] then j else j - 1;
      var k' := NonEmptyStrippedFrom(ls[1..], j');
      NonBlankCountCons(ls, k');
      k := k' + 1;
    }
  }

  /** A list of strings `conv_list` may produce. */
  ghost predicate ListItems(ls: seq<string>) {
    forall k :: 0 <= k < |ls| ==>
      ls[k] != [] && IsStripped(ls[k]) && forall i :: 0 <= i < |ls[k]| ==> !IsLineBreak(ls[k][i])
  }

  lemma {:induction false} NonEmptyStrippedLines(ls: seq<string>)
    requires forall k, i :: 0 <= k < |ls| && 0 <= i < |ls[k]| ==> !IsLineBreak(ls[k][i])
    ensures ListItems(NonEmptyStripped(ls))
  {
    if ls != [] {
      NonEmptyStrippedLines(ls[1..]);
      var s := Strip(ls[0]);
      if s != [] {
        forall i | 0 <= i < |s| ensures !IsLineBreak(s[i]) {
          StripSubset(s[i], ls[0]);
        }
      }
    }
  }

  /** `conv_list`: the stripped, non-empty lines of the stripped value. */
  function ConvList(v: string): (r: seq<string>)
    ensures ListItems(r)
    ensures |r| == NonBlankCount(SplitLines(Strip(v)))
  {
    NonEmptyStrippedLines(SplitLines(Strip(v)));
    NonEmptyStripped(SplitLines(Strip(v)))
  }

  /** Each non-blank line, stripped, is at its place among the items. */
  lemma NonEmptyStrippedPlaces(ls: seq<string>, r: seq<string>)
    requires r == NonEmptyStripped(ls)
    ensures forall k :: 0 <= k < |ls| && Strip(ls[k]) != [] ==>
      NonBlankCount(ls[..k]) < |r| && r[NonBlankCount(ls[..k])] == Strip(ls[k])
  {
    forall k | 0 <= k < |ls| && Strip(ls[k]) != []
      ensures NonBlankCount(ls[..k]) < |r| && r[NonBlankCount(ls[..k])] == Strip(ls[k])
    {
      NonEmptyStrippedAt(ls, k);
    }
  }

  /**
   * `conv_list` has one item per non-blank line of the stripped value: the
   * non-blank line `k`, stripped, is item number "non-blank lines before
   * `k`". Since these places are distinct and number exactly the items, the
   * list is fixed by the lines.
   */
  lemma ConvListLines(v: string)
    ensures var ls := SplitLines(Strip(v));
      |ConvList(v)| == NonBlankCount(ls)
      && (forall k :: 0 <= k < |ls| && Strip(ls[k]) != [] ==>
            NonBlankCount(ls[..k]) < |ConvList(v)| && ConvList(v)[NonBlankCount(ls[..k])] == Strip(ls[k]))
  {
    var ls := SplitLines(Strip(v));
    var r := ConvList(v);
    assert r == NonEmptyStripped(ls);
    NonEmptyStrippedPlaces(ls, r);
  }

  lemma {:induction false} LineEndAfter(a: string, t: string)
    requires a + t != []
    requires forall i :: 0 <= i < |a| ==> !IsLineBreak(a[i])
    requires t == [] || t[0] == '\n'
    ensures LineEnd(a + t) == (|a|, |a| + 1)
  {
    if a != [] && |a + t| > 1 {
      assert (a + t)[1..] == a[1..] + t;
      LineEndAfter(a[1..], t);
    }
  }

  lemma {:induction false} SplitJoinedLines(ls: seq<string>)
    requires ListItems(ls)
    ensures SplitLines(Join(ls, "\n")) == ls
  {
    if |ls| == 1 {
      LineEndAfter(ls[0], []);
      assert ls[0] + [] == ls[0];
    } else if |ls| > 1 {
      var j := Join(ls[1..], "\n");
      var s := ls[0] + "\n" + j;
      assert s == ls[0] + ("\n" + j);
      LineEndAfter(ls[0], "\n" + j);
      assert s[..|ls[0]|] == ls[0];
      assert s[|ls[0]| + 1..] == j;
      SplitJoinedLines(ls[1..]);
      assert ls == [ls[0]] + ls[1..];
    }
  }

  lemma {:induction false} JoinStripped(ls: seq<string>)
    requires ListItems(ls)
    ensures Join(ls, "\n") == [] || (Join(ls, "\n")[0] == ls[0][0]
                                     && Join(ls, "\n")[|Join(ls, "\n")| - 1] == ls[|ls| - 1][|ls[|ls| - 1]| - 1])
    ensures IsStripped(Join(ls, "\n"))
  {
    if |ls| > 1 {
      JoinStripped(ls[1..]);
    }
  }

  lemma {:induction false} NonEmptyStrippedItems(ls: seq<string>)
    requires ListItems(ls)
    ensures NonEmptyStripped(ls) == ls
  {
    if ls != [] {
      StripStripped(ls[0]);
      NonEmptyStrippedItems(ls[1..]);
    }
  }

  /**
   * Writing a list back one item per line and reading it with `conv_list`
   * gives the same list.
   */
  lemma ConvListRoundTrip(v: string)
    ensures ConvList(Join(ConvList(v), "\n")) == ConvList(v)
  {
    var ls := ConvList(v);
    JoinStripped(ls);
    StripStripped(Join(ls, "\n"));
    SplitJoinedLines(ls);
    NonEmptyStrippedItems(ls);
  }

  /** Keys and values without surrounding white space. */
  predicate StrippedEntries(m: map<string, string>) {
    forall k :: k in m ==> IsStripped(k) && IsStripped(m[k])
  }

  /** The key of a `conv_dict` line: its first space-separated piece, stripped. */
  function EntryKey(m: string): string {
    Strip(FirstField(m, ' '))
  }

  /** The value of a `conv_dict` line: its second space-separated piece, stripped. */
  function EntryValue(m: string): string
    requires ' ' in m
  {
    Strip(SecondField(m, ' '))
  }

  /** `maps[s[0].strip()] = s[1].strip()` for one line; None where `s[1]` raises IndexError. */
  function Put(d: Option<map<string, string>>, m: string): Option<map<string, string>> {
    match d
    case None => None
    case Some(d) => if ' ' in m then Some(d[EntryKey(m) := EntryValue(m)]) else None
  }

  /** The `conv_dict` loop over lines `ls`, in order. */
  function DictOf(ls: seq<string>): (r: Option<map<string, string>>)
    ensures r.Some? ==> StrippedEntries(r.value)
  {
    if ls == [] then Some(map[]) else Put(DictOf(ls[..|ls| - 1]), ls[|ls| - 1])
  }

  /** `conv_dict`: one `key value` entry per line of `conv_list`. */
  function ConvDict(v: string): (r: Option<map<string, string>>)
    ensures r.Some? ==> StrippedEntries(r.value)
    ensures r.None? <==> exists k :: 0 <= k < |ConvList(v)| && ' ' !in ConvList(v)[k]
  {
    DictOfFails(ConvList(v));
    DictOf(ConvList(v))
  }

  /** `conv_dict` fails exactly when some line has no space. */
  lemma {:induction false} DictOfFails(ls: seq<string>)
    ensures DictOf(ls).None? <==> exists k :: 0 <= k < |ls| && ' ' !in ls[k]
  {
    if ls != [] {
      var p := ls[..|ls| - 1];
      DictOfFails(p);
      assert forall k :: 0 <= k < |p| ==> p[k] == ls[k];
      if ' ' in ls[|ls| - 1] {
        if exists k :: 0 <= k < |ls| && ' ' !in ls[k] {
          var k :| 0 <= k < |ls| && ' ' !in ls[k];
          assert k < |p| && ' ' !in p[k];
        }
      }
    }
  }

  /** When `conv_dict` succeeds, a key is present exactly when some line names it. */
  lemma {:induction false} DictOfKeys(ls: seq<string>, k: string)
    requires DictOf(ls).Some?
    ensures k in DictOf(ls).value <==> exists j :: 0 <= j < |ls| && EntryKey(ls[j]) == k
  {
    if k in DictOf(ls).value {
      var j := KeyLine(ls, k);
    }
    if exists j :: 0 <= j < |ls| && EntryKey(ls[j]) == k {
      var j :| 0 <= j < |ls| && EntryKey(ls[j]) == k;
      LineKey(ls, j);
    }
  }

  lemma {:induction false} KeyLine(ls: seq<string>, k: string) returns (j: nat)
    requires DictOf(ls).Some? && k in DictOf(ls).value
    ensures j < |ls| && EntryKey(ls[j]) == k
  {
    var p, m := ls[..|ls| - 1], ls[|ls| - 1];
    assert DictOf(p).Some?;
    var d := DictOf(p).value;
    assert DictOf(ls).value == d[EntryKey(m) := EntryValue(m)];
    if EntryKey(m) == k {
      j := |ls| - 1;
    } else {
      j := KeyLine(p, k);
      assert ls[j] == p[j];
    }
  }

  lemma {:induction false} LineKey(ls: seq<string>, j: nat)
    requires DictOf(ls).Some? && j < |ls|
    ensures EntryKey(ls[j]) in DictOf(ls).value
  {
    var p, m := ls[..|ls| - 1], ls[|ls| - 1];
    assert DictOf(p).Some?;
    var d := DictOf(p).value;
    assert DictOf(ls).value == d[EntryKey(m) := EntryValue(m)];
    if j < |p| {
      assert ls[j] == p[j];
      LineKey(p, j);
    }
  }

  /** A later line for the same key overrides an earlier one: the last line naming a key gives its value. */
  lemma {:induction false} DictOfLastWins(ls: seq<string>, j: nat)
    requires DictOf(ls).Some? && j < |ls|
    requires forall j' :: j < j' < |ls| ==> EntryKey(ls[j']) != EntryKey(ls[j])
    ensures ' ' in ls[j]
    ensures EntryKey(ls[j]) in DictOf(ls).value
    ensures DictOf(ls).value[EntryKey(ls[j])] == EntryValue(ls[j])
  {
    var p := ls[..|ls| - 1];
    if j < |p| {
      assert p[j] == ls[j];
      assert forall j' :: j < j' < |p| ==> p[j'] == ls[j'];
      DictOfLastWins(p, j);
    }
  }

  /** Text starts with one or more spaces and then `#`: a match of ` +#`. */
  predicate StartsComment(s: string) {
    |s| >= 2 && s[0] == ' ' && (s[1] == '#' || StartsComment(s[1..]))
  }

  /**
   * `re.split(r' +#', l)[0]`: `l` up to the first run of spaces that is
   * followed by `#`.
   */
  function CutComment(l: string): (r: string)
    ensures StartsWith(l, r)
    ensures forall j :: 0 <= j < |r| ==> !StartsComment(l[j..])
    ensures |r| < |l| ==> StartsComment(l[|r|..])
  {
    if l == [] then []
    else if StartsComment(l) then []
    else
      var t := CutComment(l[1..]);
      assert forall j :: 1 <= j <= |l| ==> l[j..] == l[1..][j - 1..];
      [l[0]] + t
  }

  /** What is left of a line after `CutComment` holds no space directly followed by `#`. */
  lemma NoInlineComment(l: string)
    ensures forall j :: 0 <= j < |CutComment(l)| - 1 ==> !(CutComment(l)[j] == ' ' && CutComment(l)[j + 1] == '#')
  {
    var r := CutComment(l);
    forall j | 0 <= j < |r| - 1
      ensures !(r[j] == ' ' && r[j + 1] == '#')
    {
      assert r[j] == l[j] && r[j + 1] == l[j + 1];
      assert !StartsComment(l[j..]);
    }
  }

  /** The lines of the stripped value, each cut at its inline comment. */
  function CleanLines(v: string): (r: seq<string>)
    ensures |r| == |SplitLines(Strip(v))|
    ensures forall k :: 0 <= k < |r| ==> r[k] == CutComment(SplitLines(Strip(v))[k])
  {
    var ls := SplitLines(Strip(v));
    seq(|ls|, k requires 0 <= k < |ls| => CutComment(ls[k]))
  }

  /** No blank is directly followed by `#`. */
  predicate NoSpaceHash(s: string) {
    forall j :: 0 <= j < |s| - 1 ==> !(s[j] == ' ' && s[j + 1] == '#')
  }

  /** Joining lines free of ` #` with `\n` makes no ` #` across the joins. */
  lemma {:induction false} JoinNoSpaceHash(ls: seq<string>)
    requires forall k :: 0 <= k < |ls| ==> NoSpaceHash(ls[k])
    ensures NoSpaceHash(Join(ls, "\n"))
  {
    if |ls| > 1 {
      JoinNoSpaceHash(ls[1..]);
      var a, t := ls[0], Join(ls[1..], "\n");
      var s := a + "\n" + t;
      assert NoSpaceHash(a);
      forall j | 0 <= j < |s| - 1 ensures !(s[j] == ' ' && s[j + 1] == '#') {
        if j < |a| - 1 {
          assert s[j] == a[j] && s[j + 1] == a[j + 1];
        } else if j == |a| - 1 {
          assert s[j + 1] == '\n';
        } else if j == |a| {
          assert s[j] == '\n';
        } else {
          assert s[j] == t[j - |a| - 1] && s[j + 1] == t[j - |a|];
        }
      }
    }
  }

  lemma CleanLinesNoSpaceHash(v: string)
    ensures forall k :: 0 <= k < |CleanLines(v)| ==> NoSpaceHash(CleanLines(v)[k])
  {
    forall k | 0 <= k < |CleanLines(v)| ensures NoSpaceHash(CleanLines(v)[k]) {
      NoInlineComment(SplitLines(Strip(v))[k]);
    }
  }

  /** `clean_inline_comment`: `'\n'.join` of the cut lines; no ` #` is left anywhere in it. */
  function CleanInlineComment(v: string): (r: string)
    ensures NoSpaceHash(r)
  {
    CleanLinesNoSpaceHash(v);
    JoinNoSpaceHash(CleanLines(v));
    Join(CleanLines(v), "\n")
  }

  /**
   * `clean_inline_comment` keeps one line per line of the stripped input; each
   * is a prefix of its input line and holds no ` #`.
   */
  lemma CleanInlineCommentLines(v: string)
    ensures CleanInlineComment(v) == Join(CleanLines(v), "\n")
    ensures |CleanLines(v)| == |SplitLines(Strip(v))|
    ensures forall k :: 0 <= k < |CleanLines(v)| ==>
      StartsWith(SplitLines(Strip(v))[k], CleanLines(v)[k])
      && forall j :: 0 <= j < |CleanLines(v)[k]| - 1 ==> !(CleanLines(v)[k][j] == ' ' && CleanLines(v)[k][j + 1] == '#')
  {
    forall k | 0 <= k < |CleanLines(v)| {
      NoInlineComment(SplitLines(Strip(v))[k]);
    }
  }
}
