/**
 * `IPTV.clean_channel_name` of iptv.py: a source's channel name is turned
 * into simplified Chinese (unless it holds Japanese kana or Korean Hangul)
 * and then cut down to the canonical form of the CCTV, CETV, NewTV and CHC
 * families.
 */
module Names {
  import opened Wrappers
  import opened Text
  import Urls

  /** Hiragana, katakana, and Hangul syllables. */
  predicate IsKanaOrHangul(c: char) {
    (0x3040 <= c as int <= 0x30FF) || (0xAC00 <= c as int <= 0xD7A3)
  }

  predicate HasKanaOrHangul(s: string) {
    exists i :: 0 <= i < |s| && IsKanaOrHangul(s[i])
  }

  /**
   * The conversion step: `simplify` stands for `zhconv.convert(name, 'zh-cn', …)`;
   * a name with kana or Hangul is left as it is.
   */
  function Converted(name: string, simplify: string -> string): string {
    if HasKanaOrHangul(name) then name else simplify(name)
  }

  /** Length of the run of ASCII digits at the start of `s`. */
  function DigitRun(s: string): (k: nat)
    ensures k <= |s| && (k < |s| ==> !Urls.IsDigit(s[k]))
    ensures forall i :: 0 <= i < k ==> Urls.IsDigit(s[i])
  {
    if s != [] && Urls.IsDigit(s[0]) then 1 + DigitRun(s[1..]) else 0
  }

  /** The characters of `[0-9+K]`. */
  predicate IsCctvNumberChar(c: char) {
    Urls.IsDigit(c) || c == '+' || c == 'K'
  }

  /** Length of the run of `[0-9+K]` characters at the start of `s`. */
  function CctvNumberRun(s: string): (k: nat)
    ensures k <= |s| && (k < |s| ==> !IsCctvNumberChar(s[k]))
    ensures forall i :: 0 <= i < k ==> IsCctvNumberChar(s[i])
  {
    if s != [] && IsCctvNumberChar(s[0]) then 1 + CctvNumberRun(s[1..]) else 0
  }

  /** How many digits follow the prefix `pre` at the start of `s` (0 when `s` does not start with `pre`). */
  function DigitsAfter(s: string, pre: string): (k: nat)
    ensures StartsWith(s, pre) ==> |pre| + k <= |s|
  {
    if StartsWith(s, pre) then DigitRun(s[|pre|..]) else 0
  }

  /**
   * The CCTV rule: drop the first `-`; a match of `CCTV[0-9]+ ` is cut before
   * its blank; keep what comes before the first blank; a match of
   * `CCTV[0-9+K]+` (longest run) becomes the whole name. The matches hold no
   * white space, so the `.strip()` on them changes nothing.
   */
  function CleanCctv(name: string): string {
    CctvNumber(FirstField(CctvSpaced(ReplaceFirst(name, "-", "")), ' '))
  }

  /** `re.match(r'CCTV[0-9]+ ', name)`: the matched text without its blank, or the name. */
  function CctvSpaced(name: string): string {
    var d := DigitsAfter(name, "CCTV");
    if 1 <= d && 4 + d < |name| && name[4 + d] == ' ' then name[..4 + d] else name
  }

  /** `re.match(r'CCTV[0-9\+K]+', name)`: the matched text, or the name. */
  function CctvNumber(name: string): string {
    var e := if StartsWith(name, "CCTV") then CctvNumberRun(name[4..]) else 0;
    if 1 <= e then name[..4 + e] else name
  }

  /** The CETV rule: drop the first `-`; a match of `CETV[0-9]+` becomes the whole name. */
  function CleanCetv(name: string): string {
    var n1 := ReplaceFirst(name, "-", "");
    var d := DigitsAfter(n1, "CETV");
    if 1 <= d then n1[..4 + d] else n1
  }

  /** One turn of the `NewTV`/`CHC` loop: `p` followed by a blank loses the blank, then the name ends at its first blank. */
  function CleanPrefix(name: string, p: string): (r: string)
    requires p != []
    ensures |r| <= |name|
  {
    if StartsWith(name, p) then FirstField(ReplaceAll(name, p + " ", p), ' ') else name
  }

  /** The prefix rules applied to an already converted name. */
  function Canonical(name: string): (r: string)
    ensures |r| <= |name|
  {
    if StartsWith(name, "CCTV") then CleanCctv(name)
    else if StartsWith(name, "CETV") then CleanCetv(name)
    else CleanPrefix(CleanPrefix(name, "NewTV"), "CHC")
  }

  /** `clean_channel_name(name)` */
  function CleanChannelName(name: string, simplify: string -> string): (r: string)
    ensures HasKanaOrHangul(name) ==> |r| <= |name|
    ensures !HasKanaOrHangul(name) ==> |r| <= |simplify(name)|
  {
    Canonical(Converted(name, simplify))
  }

  // Helper facts about the string operations the rules use.

  lemma FirstFieldKeepsPrefix(s: string, p: string, sep: char)
    requires StartsWith(s, p) && sep !in p
    ensures StartsWith(FirstField(s, sep), p)
  {
    var k := IndexOf(s, sep);
    if k < |p| {
      assert false;
    }
    assert FirstField(s, sep)[..|p|] == s[..|p|];
  }

  lemma FirstFieldHasNoSep(s: string, sep: char)
    ensures sep !in FirstField(s, sep)
  {
  }

  lemma ReplaceFirstKeepsPrefix(s: string, p: string, pat: string, rep: string)
    requires StartsWith(s, p) && pat != [] && pat[0] !in p
    ensures StartsWith(ReplaceFirst(s, pat, rep), p)
  {
    match Find(s, pat)
    case None =>
    case Some(i) =>
      if i < |p| {
        assert false;
      }
      assert ReplaceFirst(s, pat, rep)[..|p|] == s[..|p|];
  }

  lemma {:induction false} ReplaceAllKeepsFree(s: string, t: string, pat: string, rep: string)
    requires pat != [] && StartsWith(s, t) && pat[0] !in t
    ensures StartsWith(ReplaceAll(s, pat, rep), t)
    decreases |s|
  {
    if t != [] {
      assert s[0] == t[0];
      assert !StartsWith(s, pat);
      assert s[1..][..|t| - 1] == t[1..];
      ReplaceAllKeepsFree(s[1..], t[1..], pat, rep);
    }
  }

  /** A non-empty result of `ReplaceAll` with `rep[0] == pat[0]` begins like its input. */
  lemma ReplaceAllFirstChar(s: string, pat: string, rep: string)
    requires pat != [] && rep != [] && rep[0] == pat[0] && s != []
    ensures ReplaceAll(s, pat, rep) != [] && ReplaceAll(s, pat, rep)[0] == s[0]
  {
    if StartsWith(s, pat) {
      assert s[0] == pat[0];
    }
  }

  lemma ReplaceAllKeepsNewTV(s: string)
    requires StartsWith(s, "NewTV")
    ensures StartsWith(ReplaceAll(s, "NewTV ", "NewTV"), "NewTV")
  {
    if !StartsWith(s, "NewTV ") {
      assert s[1..][..4] == "ewTV";
      ReplaceAllKeepsFree(s[1..], "ewTV", "NewTV ", "NewTV");
    }
  }

  lemma ReplaceAllKeepsCHC(s: string)
    requires StartsWith(s, "CHC")
    ensures StartsWith(ReplaceAll(s, "CHC ", "CHC"), "CHC")
  {
    if !StartsWith(s, "CHC ") {
      var t := s[1..];
      assert t[0] == 'H' && !StartsWith(t, "CHC ");
      var u := t[1..];
      assert u != [] && u[0] == 'C';
      ReplaceAllFirstChar(u, "CHC ", "CHC");
    }
  }

  // What the rules promise.

  /** A name with kana or Hangul is never converted: the conversion function plays no part. */
  lemma KanaOrHangulNotConverted(name: string, f: string -> string, g: string -> string)
    requires HasKanaOrHangul(name)
    ensures CleanChannelName(name, f) == CleanChannelName(name, g) == Canonical(name)
  {
  }

  /**
   * A CCTV name stays a CCTV name without blanks; when a channel number
   * (`[0-9+K]`) follows `CCTV`, the name ends where the number ends.
   */
  lemma CctvCanonical(name: string)
    requires StartsWith(name, "CCTV")
    ensures var r := Canonical(name);
      StartsWith(r, "CCTV") && ' ' !in r
      && (|r| > 4 && IsCctvNumberChar(r[4]) ==> forall i :: 4 <= i < |r| ==> IsCctvNumberChar(r[i]))
  {
    var n1 := ReplaceFirst(name, "-", "");
    ReplaceFirstKeepsPrefix(name, "CCTV", "-", "");
    var n2 := CctvSpaced(n1);
    assert StartsWith(n2, "CCTV");
    var n3 := FirstField(n2, ' ');
    FirstFieldKeepsPrefix(n2, "CCTV", ' ');
    FirstFieldHasNoSep(n2, ' ');
    CctvNumberCut(n3);
  }

  lemma CctvNumberCut(n: string)
    requires StartsWith(n, "CCTV") && ' ' !in n
    ensures var r := CctvNumber(n);
      StartsWith(r, "CCTV") && ' ' !in r
      && (|r| > 4 && IsCctvNumberChar(r[4]) ==> forall i :: 4 <= i < |r| ==> IsCctvNumberChar(r[i]))
  {
    var e := CctvNumberRun(n[4..]);
    if 1 <= e {
      assert CctvNumber(n) == n[..4 + e];
    } else {
      assert CctvNumber(n) == n;
    }
  }

  /** A CETV name stays a CETV name; when digits follow `CETV` (a `-` between them dropped), they end it. */
  lemma CetvCanonical(name: string)
    requires StartsWith(name, "CETV")
    ensures var r := Canonical(name);
      StartsWith(r, "CETV")
      && (|r| > 4 && Urls.IsDigit(r[4]) ==> forall i :: 4 <= i < |r| ==> Urls.IsDigit(r[i]))
  {
    ReplaceFirstKeepsPrefix(name, "CETV", "-", "");
  }

  lemma PrefixRule(name: string, p: string)
    requires p != [] && ' ' !in p && StartsWith(name, p)
    requires StartsWith(ReplaceAll(name, p + " ", p), p)
    ensures StartsWith(CleanPrefix(name, p), p) && ' ' !in CleanPrefix(name, p)
  {
    var r1 := ReplaceAll(name, p + " ", p);
    FirstFieldKeepsPrefix(r1, p, ' ');
    FirstFieldHasNoSep(r1, ' ');
  }

  /** A NewTV name stays a NewTV name and holds no blank. */
  lemma NewTVCanonical(name: string)
    requires StartsWith(name, "NewTV")
    ensures StartsWith(Canonical(name), "NewTV") && ' ' !in Canonical(name)
  {
    assert "NewTV" + " " == "NewTV ";
    ReplaceAllKeepsNewTV(name);
    PrefixRule(name, "NewTV");
    var r := CleanPrefix(name, "NewTV");
    assert r[0] == 'N' && !StartsWith(r, "CHC");
    assert !StartsWith(name, "CCTV") && !StartsWith(name, "CETV");
    assert Canonical(name) == CleanPrefix(r, "CHC") == r;
  }

  /** A CHC name stays a CHC name and holds no blank. */
  lemma CHCCanonical(name: string)
    requires StartsWith(name, "CHC")
    ensures StartsWith(Canonical(name), "CHC") && ' ' !in Canonical(name)
  {
    assert "CHC" + " " == "CHC ";
    ReplaceAllKeepsCHC(name);
    PrefixRule(name, "CHC");
    assert name[..3] == "CHC";
    assert name[0] == 'C' && name[1] == 'H';
    assert !StartsWith(name, "CCTV") && !StartsWith(name, "CETV") by {
      if |name| >= 4 {
        assert name[..4][1] == 'H';
      }
    }
    assert !StartsWith(name, "NewTV") by {
      if |name| >= 5 {
        assert name[..5][0] == 'C';
      }
    }
    assert CleanPrefix(name, "NewTV") == name;
  }

  /** A name outside the four families is left as the conversion gave it. */
  lemma OtherCanonical(name: string)
    requires !StartsWith(name, "CCTV") && !StartsWith(name, "CETV")
    requires !StartsWith(name, "NewTV") && !StartsWith(name, "CHC")
    ensures Canonical(name) == name
  {
  }


  // Worked examples.

  /** Dropping the first `-` of `pre + "-" + post`, where `pre` has none, leaves `pre + post`. */
  lemma DropFirstDash(pre: string, post: string)
    requires '-' !in pre
    ensures ReplaceFirst(pre + "-" + post, "-", "") == pre + post
  {
    var s := pre + "-" + post;
    assert OccursAt(s, "-", |pre|);
    assert forall j :: 0 <= j < |pre| ==> s[j] == pre[j] && !OccursAt(s, "-", j);
    assert Find(s, "-") == Some(|pre|);
    assert s[..|pre|] == pre && s[|pre| + 1..] == post;
  }

  /** Characters below the kana block: no conversion is skipped. */
  lemma NoKanaBelow(s: string)
    requires forall i :: 0 <= i < |s| ==> s[i] as int < 0x3040
    ensures !HasKanaOrHangul(s)
  {
  }

  /** `CCTV` and a digit run followed by a blank is cut before the blank. */
  lemma CctvSpacedDigits(d: string, rest: string)
    requires d != [] && forall i :: 0 <= i < |d| ==> Urls.IsDigit(d[i])
    ensures CctvSpaced("CCTV" + d + " " + rest) == "CCTV" + d
  {
    var n := "CCTV" + d + " " + rest;
    assert n[..4] == "CCTV";
    assert n[4..] == d + " " + rest;
    DigitRunOf(d, " " + rest);
    assert n[4 + |d|] == ' ';
    assert n[..4 + |d|] == "CCTV" + d;
  }

  /** A digit run stops at the first non-digit. */
  lemma {:induction false} DigitRunOf(d: string, t: string)
    requires forall i :: 0 <= i < |d| ==> Urls.IsDigit(d[i])
    requires t == [] || !Urls.IsDigit(t[0])
    ensures DigitRun(d + t) == |d|
  {
    if d != [] {
      assert (d + t)[1..] == d[1..] + t;
      DigitRunOf(d[1..], t);
    }
  }

  /** A name that is `CCTV` and a `[0-9+K]` run is its own CCTV match. */
  lemma {:induction false} CctvNumberRunAll(d: string)
    requires forall i :: 0 <= i < |d| ==> IsCctvNumberChar(d[i])
    ensures CctvNumberRun(d) == |d|
  {
    if d != [] {
      CctvNumberRunAll(d[1..]);
    }
  }

  /** `CCTV` followed by a channel number and no blank is left as it is by the last two CCTV steps. */
  lemma CctvNumberWhole(d: string)
    requires d != [] && forall i :: 0 <= i < |d| ==> IsCctvNumberChar(d[i])
    ensures CctvNumber(FirstField("CCTV" + d, ' ')) == "CCTV" + d
  {
    var n := "CCTV" + d;
    assert ' ' !in n by {
      forall i | 0 <= i < |n| ensures n[i] != ' ' {
        if i >= 4 {
          assert n[i] == d[i - 4];
        }
      }
    }
    assert FirstField(n, ' ') == n;
    assert n[..4] == "CCTV" && n[4..] == d;
    CctvNumberRunAll(d);
  }

  /** `CCTV-<digits> <rest>` is cut down to `CCTV<digits>`. */
  lemma CctvDashDigits(d: string, rest: string)
    requires d != [] && forall i :: 0 <= i < |d| ==> Urls.IsDigit(d[i])
    ensures CleanCctv("CCTV" + "-" + (d + " " + rest)) == "CCTV" + d
  {
    DropFirstDash("CCTV", d + " " + rest);
    assert "CCTV" + (d + " " + rest) == "CCTV" + d + " " + rest;
    CctvSpacedDigits(d, rest);
    forall i | 0 <= i < |d| ensures IsCctvNumberChar(d[i]) {}
    CctvNumberWhole(d);
  }

  /** `CCTV-1 HD` comes out as `CCTV1` when the conversion leaves it alone. */
  lemma CctvOneHd(simplify: string -> string)
    requires simplify("CCTV-1 HD") == "CCTV-1 HD"
    ensures CleanChannelName("CCTV-1 HD", simplify) == "CCTV1"
  {
    var s := "CCTV-1 HD";
    NoKanaBelow(s);
    assert StartsWith(s, "CCTV");
    assert s == "CCTV" + "-" + ("1" + " " + "HD");
    CctvDashDigits("1", "HD");
  }

  /**
   * The prefix rules are not idempotent: `CCTV--` loses one `-` per pass, so
   * cleaning a cleaned name can change it again.
   */
  lemma CanonicalNotIdempotent()
    ensures Canonical("CCTV--") == "CCTV-"
    ensures Canonical("CCTV-") == "CCTV"
  {
    CanonicalDashes("CCTV--", "CCTV-", "CCTV");
  }

  lemma CanonicalDashes(s: string, t: string, u: string)
    requires u == "CCTV" && t == u + "-" && s == t + "-"
    ensures Canonical(s) == t && Canonical(t) == u
  {
    assert StartsWith(s, "CCTV") && StartsWith(t, "CCTV");
    assert s == u + "-" + "-" && t == u + "-" + "";
    DropFirstDash(u, "-");
    DropFirstDash(u, "");
    CctvDashTail(t);
    CctvBare(u);
  }

  lemma CctvDashTail(t: string)
    requires t == "CCTV-"
    ensures CctvNumber(FirstField(CctvSpaced(t), ' ')) == t
  {
    assert t[..4] == "CCTV" && t[4..] == "-";
    assert DigitRun("-") == 0;
    assert CctvSpaced(t) == t;
    assert ' ' !in t;
    assert FirstField(t, ' ') == t;
    assert CctvNumberRun("-") == 0;
  }

  lemma CctvBare(u: string)
    requires u == "CCTV"
    ensures CctvNumber(FirstField(CctvSpaced(u), ' ')) == u
  {
    assert u[..4] == "CCTV" && u[4..] == [];
    assert CctvSpaced(u) == u;
    assert ' ' !in u;
    assert FirstField(u, ' ') == u;
  }
}
