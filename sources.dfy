/**
 * The reading half of `IPTV.fetch_sources` in iptv.py: a fetched source
 * document (its text split at `\n`) is recognised as M3U or TXT and scanned
 * line by line into the `add_channel_uri(name, uri)` calls it makes. The
 * scan keeps the last channel name it set (`chl_name`), which carries over
 * from one document to the next.
 */
module Sources {
  import opened Wrappers
  import opened Text

  /** One `add_channel_uri(name, uri)` call. */
  datatype Call = Call(name: string, uri: string)

  /**
   * The scan state: the calls made so far, `chl_name` (None while it is
   * unbound), `cur_cate`, and whether the scan stopped on an UnboundLocalError
   * (a channel address before any channel name).
   */
  datatype Scan = Scan(calls: seq<Call>, name: Option<string>, cate: Option<string>, failed: bool)

  /** The state a document's scan starts from: `cur_cate` is reset, `chl_name` is kept. */
  function Start(calls: seq<Call>, name: Option<string>): Scan {
    Scan(calls, name, None, false)
  }

  /** Some line of `lines` contains `#EXTINF`. */
  function AnyExtinf(lines: seq<string>): (r: bool)
    ensures r <==> exists i :: 0 <= i < |lines| && Contains(lines[i], "#EXTINF")
  {
    if lines == [] then false
    else Contains(lines[0], "#EXTINF") || (assert forall i :: 1 <= i < |lines| ==> lines[i] == lines[1..][i - 1]; AnyExtinf(lines[1..]))
  }

  /** `any('#EXTINF' in line for line in lines[:15])` */
  function IsM3u(lines: seq<string>): (r: bool)
    ensures r <==> exists i :: 0 <= i < |lines| && i < 15 && Contains(lines[i], "#EXTINF")
  {
    var head := if |lines| <= 15 then lines else lines[..15];
    assert forall i :: 0 <= i < |head| ==> head[i] == lines[i];
    AnyExtinf(head)
  }

  // ----- M3U -----

  const GroupTitle := "group-title=\""

  /**
   * `re.search(r'group-title="(.*?)",(.*)', line)`: the first `group-title="`,
   * then the first `",` after it. Returns the category and the stripped
   * channel name, or None when the pattern does not match.
   */
  function ExtinfFields(line: string): (r: Option<(string, string)>)
    ensures r.Some? ==> Contains(line, GroupTitle) && IsStripped(r.value.0) && IsStripped(r.value.1)
    ensures !Contains(line, GroupTitle) ==> r.None?
  {
    match Find(line, GroupTitle)
    case None => None
    case Some(p) =>
      var after := line[p + |GroupTitle|..];
      match Find(after, "\",")
      case None => None
      case Some(q) => Some((Strip(after[..q]), Strip(after[q + 2..])))
  }

  lemma FindAt(s: string, t: string, i: nat)
    requires OccursAt(s, t, i) && forall j :: 0 <= j < i ==> !OccursAt(s, t, j)
    ensures Find(s, t) == Some(i)
  {
  }

  /**
   * The first `group-title="` opens the category, which runs to the first
   * `",`; everything after that, stripped, is the channel name.
   */
  lemma ExtinfFieldsOf(pre: string, c: string, n: string)
    requires forall j :: 0 <= j < |pre| ==> !OccursAt(pre + GroupTitle + c + "\"," + n, GroupTitle, j)
    requires '"' !in c
    ensures ExtinfFields(pre + GroupTitle + c + "\"," + n) == Some((Strip(c), Strip(n)))
  {
    var line := pre + GroupTitle + c + "\"," + n;
    var p := |pre|;
    assert Find(line, GroupTitle) == Some(p) by {
      assert line[p..p + |GroupTitle|] == GroupTitle;
      FindAt(line, GroupTitle, p);
    }
    var after := line[p + |GroupTitle|..];
    assert after == c + "\"," + n;
    CloseQuoteAt(c, n);
    ExtinfFieldsAt(line, p, |c|);
    assert after[..|c|] == c && after[|c| + 2..] == n;
  }

  /** The first `",` after a category without `"` is the one that closes it. */
  lemma CloseQuoteAt(c: string, n: string)
    requires '"' !in c
    ensures Find(c + "\"," + n, "\",") == Some(|c|)
  {
    var after := c + "\"," + n;
    assert after[|c|..|c| + 2] == "\",";
    forall j | 0 <= j < |c| ensures !OccursAt(after, "\",", j) {
      assert after[j] == c[j];
    }
    FindAt(after, "\",", |c|);
  }

  lemma ExtinfFieldsAt(line: string, p: nat, q: nat)
    requires Find(line, GroupTitle) == Some(p)
    requires Find(line[p + |GroupTitle|..], "\",") == Some(q)
    ensures var after := line[p + |GroupTitle|..];
      ExtinfFields(line) == Some((Strip(after[..q]), Strip(after[q + 2..])))
  {
  }

  /** How the M3U loop reads a line. */
  datatype M3uLine =
    | Blank                                    // empty after stripping: skipped
    | Extinf(fields: Option<(string, string)>) // `#EXTINF…`, with its category and name if it matches
    | Directive                                // any other line starting with `#`
    | Address(uri: string)                     // the stripped line, handed to `add_channel_uri`

  /** What the M3U loop passes as a uri: stripped, not empty, not starting with `#`. */
  predicate IsAddress(u: string) {
    u != [] && u[0] != '#' && IsStripped(u)
  }

  function ClassifyM3u(raw: string): (k: M3uLine)
    ensures k.Address? ==> IsAddress(k.uri)
  {
    var line := Strip(raw);
    if line == [] then Blank
    else if StartsWith(line, "#EXTINF") then Extinf(ExtinfFields(line))
    else if line[0] == '#' then Directive
    else Address(line)
  }

  /** The M3U reading of every line. */
  function M3uKinds(lines: seq<string>): (ks: seq<M3uLine>)
    ensures |ks| == |lines| && forall i :: 0 <= i < |lines| ==> ks[i] == ClassifyM3u(lines[i])
  {
    seq(|lines|, i requires 0 <= i < |lines| => ClassifyM3u(lines[i]))
  }

  /** An `#EXTINF` line that names a channel. */
  predicate Names(k: M3uLine) {
    k.Extinf? && k.fields.Some?
  }

  /** One turn of the M3U loop. */
  function M3uStep(st: Scan, k: M3uLine): Scan {
    if st.failed then st
    else
      match k
      case Extinf(Some(f)) => st.(cate := Some(f.0), name := Some(f.1))
      case Address(line) =>
        (match st.name
         case None => st.(failed := true)
         case Some(n) => st.(calls := st.calls + [Call(n, line)]))
      case _ => st
  }

  /** The M3U loop over the lines read as `ks`, from state `st`. */
  function M3uRun(ks: seq<M3uLine>, st: Scan): (r: Scan)
    ensures |st.calls| <= |r.calls| && r.calls[..|st.calls|] == st.calls
    ensures st.failed ==> r == st
  {
    if ks == [] then st else M3uStep(M3uRun(ks[..|ks| - 1], st), ks[|ks| - 1])
  }

  function M3u(lines: seq<string>, st: Scan): Scan {
    M3uRun(M3uKinds(lines), st)
  }

  // ----- TXT -----

  /** How the TXT loop reads a line. */
  datatype TxtLine =
    | Genre(cate: string)             // holds `#genre#`: the category is the text before the first comma
    | Pair(name: string, uri: string) // `^(.*?),(.*?)$`: split at the first comma
    | Other

  function ClassifyTxt(raw: string): (k: TxtLine)
    ensures k.Pair? ==> ',' !in k.name
  {
    var line := Strip(raw);
    if Contains(line, "#genre#") then Genre(Strip(FirstField(line, ',')))
    else if ',' in line then
      var i := IndexOf(line, ',');
      var n := Strip(line[..i]);
      assert ',' !in n by {
        if ',' in n {
          StripSubset(',', line[..i]);
        }
      }
      Pair(n, Strip(line[i + 1..]))
    else Other
  }

  /** The TXT reading of every line. */
  function TxtKinds(lines: seq<string>): (ks: seq<TxtLine>)
    ensures |ks| == |lines| && forall i :: 0 <= i < |lines| ==> ks[i] == ClassifyTxt(lines[i])
  {
    seq(|lines|, i requires 0 <= i < |lines| => ClassifyTxt(lines[i]))
  }

  /** One turn of the TXT loop: a pair only counts once a non-empty category is current. */
  function TxtStep(st: Scan, k: TxtLine): Scan {
    match k
    case Genre(c) => st.(cate := Some(c))
    case Pair(n, u) =>
      if st.cate.Some? && st.cate.value != [] then st.(calls := st.calls + [Call(n, u)], name := Some(n))
      else st
    case Other => st
  }

  /** The TXT loop over the lines read as `ks`, from state `st`. */
  function TxtRun(ks: seq<TxtLine>, st: Scan): (r: Scan)
    ensures |st.calls| <= |r.calls| && r.calls[..|st.calls|] == st.calls
    ensures r.failed == st.failed
  {
    if ks == [] then st else TxtStep(TxtRun(ks[..|ks| - 1], st), ks[|ks| - 1])
  }

  function Txt(lines: seq<string>, st: Scan): Scan {
    TxtRun(TxtKinds(lines), st)
  }

  /** The scan of one fetched document. */
  function ScanDocument(lines: seq<string>, calls: seq<Call>, name: Option<string>): (r: Scan)
    ensures |calls| <= |r.calls| && r.calls[..|calls|] == calls
    ensures r.failed ==> IsM3u(lines)
  {
    if IsM3u(lines) then M3u(lines, Start(calls, name)) else Txt(lines, Start(calls, name))
  }

  // ----- The loops as the source runs them -----

  method ScanM3u(lines: seq<string>, st: Scan) returns (r: Scan)
    ensures r == M3u(lines, st)
  {
    ghost var ks := M3uKinds(lines);
    r := st;
    var i := 0;
    while i < |lines|
      invariant 0 <= i <= |lines|
      invariant r == M3uRun(ks[..i], st)
    {
      var k := ClassifyM3u(lines[i]);
      assert k == ks[i];
      assert ks[..i + 1][..i] == ks[..i];
      assert M3uRun(ks[..i + 1], st) == M3uStep(M3uRun(ks[..i], st), k);
      r := M3uStep(r, k);
      i := i + 1;
    }
    assert ks[..|lines|] == ks;
  }

  method ScanTxt(lines: seq<string>, st: Scan) returns (r: Scan)
    ensures r == Txt(lines, st)
  {
    ghost var ks := TxtKinds(lines);
    r := st;
    var i := 0;
    while i < |lines|
      invariant 0 <= i <= |lines|
      invariant r == TxtRun(ks[..i], st)
    {
      var k := ClassifyTxt(lines[i]);
      assert k == ks[i];
      assert ks[..i + 1][..i] == ks[..i];
      assert TxtRun(ks[..i + 1], st) == TxtStep(TxtRun(ks[..i], st), k);
      r := TxtStep(r, k);
      i := i + 1;
    }
    assert ks[..|lines|] == ks;
  }

  /** The `is_m3u` test followed by the matching loop. */
  method ScanSource(lines: seq<string>, calls: seq<Call>, name: Option<string>) returns (r: Scan)
    ensures r == ScanDocument(lines, calls, name)
  {
    var isM3u := false;
    var i := 0;
    while i < |lines| && i < 15
      invariant 0 <= i <= |lines| && i <= 15
      invariant isM3u <==> exists j :: 0 <= j < i && Contains(lines[j], "#EXTINF")
    {
      isM3u := isM3u || Contains(lines[i], "#EXTINF");
      i := i + 1;
    }
    if isM3u {
      r := ScanM3u(lines, Start(calls, name));
    } else {
      r := ScanTxt(lines, Start(calls, name));
    }
  }

  // ----- What the scans promise -----

  /** Number of address lines. */
  function AddressCount(ks: seq<M3uLine>): nat {
    if ks == [] then 0
    else AddressCount(ks[..|ks| - 1]) + (if ks[|ks| - 1].Address? then 1 else 0)
  }

  /** An address line comes before every `#EXTINF` line that names a channel. */
  ghost predicate UnnamedAddress(ks: seq<M3uLine>) {
    exists i :: 0 <= i < |ks| && ks[i].Address? && forall j :: 0 <= j < i ==> !Names(ks[j])
  }

  /** A scan that does not fail makes one call per address line. */
  lemma {:induction false} M3uCallsPerAddress(ks: seq<M3uLine>, st: Scan)
    requires !M3uRun(ks, st).failed
    ensures |M3uRun(ks, st).calls| == |st.calls| + AddressCount(ks)
  {
    if ks != [] {
      M3uCallsPerAddress(ks[..|ks| - 1], st);
    }
  }

  /** Each M3U call passes a stripped address line, not starting with `#`, as the uri. */
  lemma {:induction false} M3uUris(ks: seq<M3uLine>, st: Scan)
    requires forall i :: 0 <= i < |ks| && ks[i].Address? ==> IsAddress(ks[i].uri)
    ensures forall k :: |st.calls| <= k < |M3uRun(ks, st).calls| ==> IsAddress(M3uRun(ks, st).calls[k].uri)
  {
    if ks != [] {
      var p := ks[..|ks| - 1];
      assert forall i :: 0 <= i < |p| ==> p[i] == ks[i];
      M3uUris(p, st);
      var mid, z := M3uRun(p, st), ks[|ks| - 1];
      var r := M3uStep(mid, z);
      assert r.calls == mid.calls || (z.Address? && r.calls == mid.calls + [Call(mid.name.value, z.uri)]);
      forall k | |st.calls| <= k < |r.calls|
        ensures IsAddress(r.calls[k].uri)
      {
        if k < |mid.calls| {
          assert r.calls[k] == mid.calls[k];
        } else {
          assert r.calls[k] == Call(mid.name.value, z.uri) && z.Address?;
          assert ks[|ks| - 1].Address?;
        }
      }
    }
  }

  lemma UnnamedAddressSnoc(p: seq<M3uLine>, z: M3uLine)
    ensures UnnamedAddress(p + [z]) <==>
      UnnamedAddress(p) || ((forall j :: 0 <= j < |p| ==> !Names(p[j])) && z.Address?)
  {
    var s := p + [z];
    if UnnamedAddress(s) {
      var i :| 0 <= i < |s| && s[i].Address? && forall j :: 0 <= j < i ==> !Names(s[j]);
      assert forall j :: 0 <= j < i && j < |p| ==> s[j] == p[j];
      if i < |p| {
        assert s[i] == p[i];
      }
    }
    if UnnamedAddress(p) {
      var i :| 0 <= i < |p| && p[i].Address? && forall j :: 0 <= j < i ==> !Names(p[j]);
      assert s[i] == p[i];
      assert forall j :: 0 <= j < i ==> s[j] == p[j];
    }
    if (forall j :: 0 <= j < |p| ==> !Names(p[j])) && z.Address? {
      assert s[|p|] == z;
      assert forall j :: 0 <= j < |p| ==> s[j] == p[j];
      assert s[|p|].Address? && forall j :: 0 <= j < |p| ==> !Names(s[j]);
    }
  }

  /** Once a line names a channel, the name stays bound. */
  lemma {:induction false} M3uNameBound(ks: seq<M3uLine>, st: Scan)
    requires (exists j :: 0 <= j < |ks| && Names(ks[j])) || st.name.Some?
    ensures !M3uRun(ks, st).failed ==> M3uRun(ks, st).name.Some?
  {
    if ks != [] {
      var p := ks[..|ks| - 1];
      if st.name.Some? || exists j :: 0 <= j < |p| && Names(p[j]) {
        M3uNameBound(p, st);
      }
    }
  }

  lemma {:induction false} M3uNameStays(ks: seq<M3uLine>, st: Scan)
    requires forall j :: 0 <= j < |ks| ==> !Names(ks[j])
    ensures M3uRun(ks, st).name == st.name
  {
    if ks != [] {
      var p := ks[..|ks| - 1];
      assert forall j :: 0 <= j < |p| ==> p[j] == ks[j];
      M3uNameStays(p, st);
    }
  }

  /**
   * The M3U scan fails exactly when no name is bound on entry and some
   * address line comes before every `#EXTINF` line that names a channel.
   */
  lemma {:induction false} M3uFails(ks: seq<M3uLine>, st: Scan)
    requires !st.failed
    ensures M3uRun(ks, st).failed <==> st.name.None? && UnnamedAddress(ks)
  {
    if ks != [] {
      var p, z := ks[..|ks| - 1], ks[|ks| - 1];
      assert ks == p + [z];
      M3uFails(p, st);
      UnnamedAddressSnoc(p, z);
      if forall j :: 0 <= j < |p| ==> !Names(p[j]) {
        M3uNameStays(p, st);
      } else {
        M3uNameBound(p, st);
      }
    }
  }

  /** `chl_name` after the M3U loop is the name set by the last `#EXTINF` line that named one. */
  lemma {:induction false} M3uLatestName(ks: seq<M3uLine>, st: Scan, j: int)
    requires 0 <= j < |ks| && Names(ks[j]) && forall i :: j < i < |ks| ==> !Names(ks[i])
    requires !M3uRun(ks, st).failed
    ensures M3uRun(ks, st).name == Some(ks[j].fields.value.1)
  {
    var p := ks[..|ks| - 1];
    if j < |p| {
      assert forall i :: j < i < |p| ==> p[i] == ks[i];
      M3uLatestName(p, st, j);
    }
  }

  /**
   * An address line is paired with the name of the most recent `#EXTINF`
   * line that named a channel: the scan appends exactly that call.
   */
  lemma M3uPairsWithLatestName(p: seq<M3uLine>, u: string, st: Scan, j: int)
    requires 0 <= j < |p| && Names(p[j]) && forall i :: j < i < |p| ==> !Names(p[i])
    requires !st.failed && !M3uRun(p, st).failed
    ensures M3uRun(p + [Address(u)], st).calls == M3uRun(p, st).calls + [Call(p[j].fields.value.1, u)]
  {
    var ks := p + [Address(u)];
    assert ks[..|ks| - 1] == p;
    M3uLatestName(p, st, j);
  }

  /** The current category after the TXT loop is the one set by the last `#genre#` line. */
  lemma {:induction false} TxtLatestCategory(ks: seq<TxtLine>, st: Scan, j: int)
    requires 0 <= j < |ks| && ks[j].Genre? && forall i :: j < i < |ks| ==> !ks[i].Genre?
    ensures TxtRun(ks, st).cate == Some(ks[j].cate)
  {
    var p := ks[..|ks| - 1];
    if j < |p| {
      assert forall i :: j < i < |p| ==> p[i] == ks[i];
      TxtLatestCategory(p, st, j);
    }
  }

  /**
   * A `name,url` line makes its call exactly when the last `#genre#` line
   * before it had a non-empty category.
   */
  lemma TxtPairNeedsCategory(p: seq<TxtLine>, n: string, u: string, st: Scan, j: int)
    requires 0 <= j < |p| && p[j].Genre? && forall i :: j < i < |p| ==> !p[i].Genre?
    ensures TxtRun(p + [Pair(n, u)], st).calls
            == TxtRun(p, st).calls + (if p[j].cate != [] then [Call(n, u)] else [])
  {
    var ks := p + [Pair(n, u)];
    assert ks[..|ks| - 1] == p;
    TxtLatestCategory(p, st, j);
  }

  /** A TXT call's channel name holds no comma: it is the text before the line's first comma. */
  lemma {:induction false} TxtNamesHaveNoComma(ks: seq<TxtLine>, st: Scan)
    requires forall i :: 0 <= i < |ks| && ks[i].Pair? ==> ',' !in ks[i].name
    ensures forall k :: |st.calls| <= k < |TxtRun(ks, st).calls| ==> ',' !in TxtRun(ks, st).calls[k].name
  {
    if ks != [] {
      var p := ks[..|ks| - 1];
      assert forall i :: 0 <= i < |p| ==> p[i] == ks[i];
      TxtNamesHaveNoComma(p, st);
      var mid, z := TxtRun(p, st), ks[|ks| - 1];
      var r := TxtStep(mid, z);
      assert r.calls == mid.calls || (z.Pair? && r.calls == mid.calls + [Call(z.name, z.uri)]);
      forall k | |st.calls| <= k < |r.calls| ensures ',' !in r.calls[k].name {
        if k < |mid.calls| {
          assert r.calls[k] == mid.calls[k];
        } else {
          assert r.calls[k] == Call(z.name, z.uri) && z.Pair?;
          assert ks[|ks| - 1].Pair?;
        }
      }
    }
  }

  /** After a TXT scan that made calls, `chl_name` is the name of the last one. */
  lemma {:induction false} TxtNameIsLastCall(ks: seq<TxtLine>, st: Scan)
    ensures var r := TxtRun(ks, st); |r.calls| > |st.calls| ==> r.name == Some(r.calls[|r.calls| - 1].name)
  {
    if ks != [] {
      TxtNameIsLastCall(ks[..|ks| - 1], st);
    }
  }

  /** Without a `#genre#` line a TXT document makes no calls. */
  lemma {:induction false} TxtNeedsGenre(ks: seq<TxtLine>, calls: seq<Call>, name: Option<string>)
    requires forall i :: 0 <= i < |ks| ==> !ks[i].Genre?
    ensures TxtRun(ks, Start(calls, name)) == Start(calls, name)
  {
    if ks != [] {
      var p := ks[..|ks| - 1];
      assert forall i :: 0 <= i < |p| ==> p[i] == ks[i];
      TxtNeedsGenre(p, calls, name);
    }
  }
}
