/**
 * `IPTV.add_channel_uri` and `IPTV.add_channel_for_debug` of iptv.py as
 * functions on the two tables they update (`channels` and `raw_channels`),
 * and the part of `fetch_sources` that folds the calls of every fetched
 * document through them.
 */
module Merge {
  import opened Wrappers
  import opened Text
  import Urls
  import Sources
  import opened Registry

  /** A list as the aggregator keeps it: distinct uris, none holding `$`, every count at least 1. */
  ghost predicate GoodList(recs: seq<Record>) {
    UniqueUris(recs) && forall i :: 0 <= i < |recs| ==> '$' !in recs[i].uri && recs[i].count >= 1
  }

  ghost predicate Good(table: map<string, seq<Record>>) {
    forall n :: n in table ==> GoodList(table[n])
  }

  /** `after` keeps every list of `before` and gives each new key an empty list. */
  ghost predicate Extends(before: map<string, seq<Record>>, after: map<string, seq<Record>>) {
    (forall n :: n in before ==> n in after && after[n] == before[n])
    && forall n :: n in after && n !in before ==> after[n] == []
  }

  /** Adding empty lists to a good table keeps it good. */
  lemma ExtendsGood(before: map<string, seq<Record>>, after: map<string, seq<Record>>)
    requires Good(before) && Extends(before, after)
    ensures Good(after)
  {
    forall n | n in after ensures GoodList(after[n]) {
      if n in before {
        assert GoodList(before[n]);
      }
    }
  }

  /** Merging a `$`-free uri into a good list gives a good list. */
  lemma ObserveGood(recs: seq<Record>, uri: string)
    requires GoodList(recs) && '$' !in uri && Observe(recs, uri).Some?
    ensures GoodList(Observe(recs, uri).value)
  {
    ObserveUnique(recs, uri);
    var r := Observe(recs, uri).value;
    var i := UriIndex(recs, uri);
    if i < |recs| {
      assert forall j :: 0 <= j < |r| ==> r[j].uri == recs[j].uri && r[j].count >= recs[j].count;
    } else {
      assert forall j :: 0 <= j < |recs| ==> r[j] == recs[j];
    }
  }

  /** The records of a list are those of any reordering of it. */
  lemma SameRecords(r: seq<Record>, recs: seq<Record>, i: nat)
    requires multiset(r) == multiset(recs) && i < |r|
    ensures exists m :: 0 <= m < |recs| && recs[m] == r[i]
  {
    assert r[i] in multiset(recs);
  }

  /** Inserting a record with a new uri keeps the uris distinct. */
  lemma {:induction false} InsertUnique(x: Record, recs: seq<Record>)
    requires UniqueUris(recs) && !HasUri(recs, x.uri)
    ensures UniqueUris(Insert(x, recs))
  {
    if recs != [] && recs[0].count > x.count {
      var t := recs[1..];
      assert !HasUri(t, x.uri) by {
        forall j | 0 <= j < |t| ensures t[j].uri != x.uri {
          assert t[j] == recs[j + 1];
        }
      }
      assert UniqueUris(t) by {
        forall i, j | 0 <= i < j < |t| ensures t[i].uri != t[j].uri {
          assert t[i] == recs[i + 1] && t[j] == recs[j + 1];
        }
      }
      InsertUnique(x, t);
      var r := Insert(x, t);
      var s := [recs[0]] + r;
      forall i, j | 0 <= i < j < |s| ensures s[i].uri != s[j].uri {
        if i > 0 {
          assert s[i] == r[i - 1] && s[j] == r[j - 1];
        } else {
          assert s[j] == r[j - 1];
          assert multiset(r) == multiset(t + [x]);
          SameRecords(r, t + [x], j - 1);
          var m :| 0 <= m < |t| + 1 && (t + [x])[m] == r[j - 1];
          if m < |t| {
            assert recs[m + 1] == r[j - 1];
          }
        }
      }
    } else {
      var s := [x] + recs;
      forall i, j | 0 <= i < j < |s| ensures s[i].uri != s[j].uri {
        assert s[j] == recs[j - 1];
        if i > 0 {
          assert s[i] == recs[i - 1];
        }
      }
    }
  }

  /** Sorting a good list gives a good list (the sort only reorders records). */
  lemma {:induction false} SortUnique(recs: seq<Record>)
    requires UniqueUris(recs)
    ensures UniqueUris(SortByCount(recs))
  {
    if recs != [] {
      var t := recs[1..];
      assert UniqueUris(t) by {
        forall i, j | 0 <= i < j < |t| ensures t[i].uri != t[j].uri {
          assert t[i] == recs[i + 1] && t[j] == recs[j + 1];
        }
      }
      SortUnique(t);
      var st := SortByCount(t);
      assert !HasUri(st, recs[0].uri) by {
        forall j | 0 <= j < |st| ensures st[j].uri != recs[0].uri {
          SameRecords(st, t, j);
          var m :| 0 <= m < |t| && t[m] == st[j];
          assert recs[m + 1] == st[j];
        }
      }
      InsertUnique(recs[0], st);
    }
  }

  /** `sort_channels` keeps every list good: it only reorders the records. */
  lemma SortGood(recs: seq<Record>)
    requires GoodList(recs)
    ensures GoodList(SortByCount(recs))
  {
    SortUnique(recs);
    var r := SortByCount(recs);
    forall i | 0 <= i < |r| ensures '$' !in r[i].uri && r[i].count >= 1 {
      SameRecords(r, recs, i);
    }
  }

  /** The two tables. */
  datatype Tables = Tables(channels: map<string, seq<Record>>, raw: map<string, seq<Record>>)

  /** Sorting every list of a good table gives a good table. */
  lemma SortAllGood(before: map<string, seq<Record>>, after: map<string, seq<Record>>)
    requires Good(before) && after.Keys == before.Keys
    requires forall k :: k in after ==> after[k] == SortByCount(before[k])
    ensures Good(after)
  {
    forall k | k in after ensures GoodList(after[k]) {
      SortGood(before[k]);
    }
  }

  /** The list `raw_channels` holds for `name`, empty when it has none yet. */
  function RawList(raw: map<string, seq<Record>>, name: string): seq<Record> {
    if name in raw then raw[name] else []
  }

  /**
   * `add_channel_for_debug(name, uri)`: the name gets a list in `raw_channels`
   * (also when the merge then fails), then the uri is merged into it.
   */
  function DebugAdd(raw: map<string, seq<Record>>, name: string, uri: string): (r: (map<string, seq<Record>>, bool))
    ensures r.0.Keys == raw.Keys + {name}
    ensures forall k :: k in raw && k != name ==> r.0[k] == raw[k]
    ensures r.1 ==> HasUri(r.0[name], uri)
    ensures !r.1 ==> r.0[name] == RawList(raw, name)
  {
    var raw1 := if name in raw then raw else raw[name := []];
    match Observe(raw1[name], uri)
    case None => (raw1, false)
    case Some(l) => (raw1[name := l], true)
  }

  /** Merging `$`-free uri into a good table keeps it good (the set-default entry included). */
  lemma DebugAddKeeps(raw: map<string, seq<Record>>, name: string, uri: string)
    requires Good(raw) && '$' !in uri
    ensures Good(DebugAdd(raw, name, uri).0) && name in DebugAdd(raw, name, uri).0
    ensures DebugAdd(raw, name, uri).0.Keys == raw.Keys + {name}
  {
    var raw1 := if name in raw then raw else raw[name := []];
    assert Good(raw1);
    if Observe(raw1[name], uri).Some? {
      ObserveGood(raw1[name], uri);
    }
  }

  /**
   * The wanted-channel half of `add_channel_uri` (lines 289-307): a name
   * that is not wanted is dropped; otherwise the uri loses a default port
   * and is merged into the channel's list. None where the Python raises.
   */
  function MergeInto(channels: map<string, seq<Record>>, n: string, u: string): (r: Option<map<string, seq<Record>>>)
    ensures r.Some? ==> r.value.Keys == channels.Keys && forall m :: m in channels && m != n ==> r.value[m] == channels[m]
    ensures r.Some? && n in channels ==> Urls.NormalizedUrl(u).Some? && HasUri(r.value[n], Urls.NormalizedUrl(u).value)
    ensures n !in channels ==> r == Some(channels)
  {
    if n !in channels then Some(channels)
    else match Urls.NormalizedUrl(u)
      case None => None
      case Some(url) =>
        match Observe(channels[n], url)
        case None => None
        case Some(l) => Some(channels[n := l])
  }

  /** Replacing one list of a good table by a good list keeps the table good. */
  lemma GoodUpdate(table: map<string, seq<Record>>, n: string, l: seq<Record>)
    requires Good(table) && GoodList(l)
    ensures Good(table[n := l])
  {
    var r := table[n := l];
    forall m | m in r ensures GoodList(r[m]) {
      if m != n {
        assert r[m] == table[m];
      }
    }
  }

  /** A merge keeps the wanted channels, changes only the list of `n`, and keeps the lists good. */
  lemma MergeIntoKeeps(channels: map<string, seq<Record>>, n: string, u: string)
    requires Good(channels) && '$' !in u && MergeInto(channels, n, u).Some?
    ensures var r := MergeInto(channels, n, u).value;
      r.Keys == channels.Keys && Good(r)
      && forall m :: m in channels && m != n ==> r[m] == channels[m]
  {
    if n in channels {
      var url := Urls.NormalizedUrl(u).value;
      Urls.NormalizedUrlNoDollar(u);
      var l := Observe(channels[n], url).value;
      assert MergeInto(channels, n, u).value == channels[n := l];
      ObserveGood(channels[n], url);
      GoodUpdate(channels, n, l);
    }
  }

  /**
   * `add_channel_uri` once the uri `u` is cut at `$` and the name `name`
   * resolved to `n`: record `u` under `name` for debugging when asked to,
   * then merge it under `n`. The flag is false where the Python raises.
   */
  function AddResolved(t: Tables, name: string, n: string, u: string, debug: bool): (Tables, bool) {
    var d := if debug then DebugAdd(t.raw, name, u) else (t.raw, true);
    if !d.1 then (Tables(t.channels, d.0), false)
    else match MergeInto(t.channels, n, u)
      case None => (Tables(t.channels, d.0), false)
      case Some(ch) => (Tables(ch, d.0), true)
  }

  /** `add_channel_uri(name, uri)` */
  function AddChannel(t: Tables, name: string, uri: string, simplify: string -> string,
                      channelMap: map<string, string>, debug: bool): (r: (Tables, bool))
    ensures r.0.channels.Keys == t.channels.Keys
    ensures !debug ==> r.0.raw == t.raw
    ensures !debug && ResolveName(name, simplify, channelMap) !in t.channels ==> r == (t, true)
  {
    AddResolved(t, name, ResolveName(name, simplify, channelMap), CutAtDollar(uri), debug)
  }

  /** A name that does not resolve to a wanted channel leaves `channels` as it was. */
  lemma AddChannelUnknownName(t: Tables, name: string, uri: string, simplify: string -> string,
                              channelMap: map<string, string>, debug: bool)
    requires ResolveName(name, simplify, channelMap) !in t.channels
    ensures AddChannel(t, name, uri, simplify, channelMap, debug).0.channels == t.channels
  {
  }

  lemma AddResolvedKeeps(t: Tables, name: string, n: string, u: string, debug: bool)
    requires Good(t.channels) && Good(t.raw) && '$' !in u
    ensures var r := AddResolved(t, name, n, u, debug).0;
      r.channels.Keys == t.channels.Keys
      && (forall m :: m in t.channels && m != n ==> r.channels[m] == t.channels[m])
      && Good(r.channels) && Good(r.raw)
      && (!debug ==> r.raw == t.raw)
  {
    if debug {
      DebugAddKeeps(t.raw, name, u);
    }
    if MergeInto(t.channels, n, u).Some? {
      MergeIntoKeeps(t.channels, n, u);
    }
  }

  /**
   * A call keeps the set of wanted channels, touches only the list of the
   * resolved name, and keeps every list good; the debug table stays good
   * too, and is only touched in debug mode.
   */
  lemma AddChannelKeeps(t: Tables, name: string, uri: string, simplify: string -> string,
                        channelMap: map<string, string>, debug: bool)
    requires Good(t.channels) && Good(t.raw)
    ensures var r := AddChannel(t, name, uri, simplify, channelMap, debug).0;
      r.channels.Keys == t.channels.Keys
      && (forall m :: m in t.channels && m != ResolveName(name, simplify, channelMap) ==> r.channels[m] == t.channels[m])
      && Good(r.channels) && Good(r.raw)
      && (!debug ==> r.raw == t.raw)
  {
    AddResolvedKeeps(t, name, ResolveName(name, simplify, channelMap), CutAtDollar(uri), debug);
  }

  /**
   * The same call made `k` times in a row outside debug mode (stopping at a
   * failure), for a name that resolves to `n` and a uri that cuts to `u`.
   */
  function AddTimes(t: Tables, name: string, n: string, u: string, k: nat): (Tables, bool) {
    if k == 0 then (t, true)
    else
      var prev := AddTimes(t, name, n, u, k - 1);
      if !prev.1 then prev else AddResolved(prev.0, name, n, u, false)
  }

  /** Outside debug mode, a wanted channel whose normalized uri merges has that merge as its new list. */
  lemma AddResolvedObserves(t: Tables, name: string, n: string, u: string, url: string)
    requires n in t.channels && Urls.NormalizedUrl(u) == Some(url) && Observe(t.channels[n], url).Some?
    ensures AddResolved(t, name, n, u, false) == (t.(channels := t.channels[n := Observe(t.channels[n], url).value]), true)
  {
  }

  /** Repeating a call `k` times merges its normalized uri `k` times into the channel's list. */
  lemma {:induction false} AddTimesObserves(t: Tables, name: string, n: string, u: string, k: nat, url: string)
    requires n in t.channels && Urls.NormalizedUrl(u) == Some(url)
    requires ObserveTimes(t.channels[n], url, k).Some?
    ensures AddTimes(t, name, n, u, k).1 && n in AddTimes(t, name, n, u, k).0.channels
    ensures AddTimes(t, name, n, u, k).0.channels[n] == ObserveTimes(t.channels[n], url, k).value
  {
    if k > 0 {
      var l := ObserveTimes(t.channels[n], url, k - 1).value;
      var prev := AddTimes(t, name, n, u, k - 1);
      AddTimesObserves(t, name, n, u, k - 1, url);
      assert prev.1 && n in prev.0.channels && prev.0.channels[n] == l;
      assert ObserveTimes(t.channels[n], url, k) == Observe(l, url);
      AddResolvedObserves(prev.0, name, n, u, url);
      assert AddTimes(t, name, n, u, k) == AddResolved(prev.0, name, n, u, false);
    }
  }

  /**
   * A wanted channel that receives the same new uri `k` times, with no
   * other call between, lists it once, last, with count `2^k - 1`.
   */
  lemma RepeatedUriCount(t: Tables, name: string, n: string, u: string, k: nat, url: string)
    requires k >= 1 && n in t.channels && GoodList(t.channels[n])
    requires Urls.NormalizedUrl(u) == Some(url) && Urls.UrlIsIpv6(url).Some?
    requires !HasUri(t.channels[n], url)
    ensures var r := AddTimes(t, name, n, u, k);
      var l := t.channels[n];
      r.1 && n in r.0.channels && |r.0.channels[n]| == |l| + 1
      && r.0.channels[n][..|l|] == l
      && r.0.channels[n][|l|] == Record(url, Pow2(k) - 1, Urls.UrlIsIpv6(url).value)
  {
    ObserveTimesCount(t.channels[n], url, k);
    AddTimesObserves(t, name, n, u, k, url);
  }

  /** `add_channel_for_debug(name, uri)` made `k` times in a row, stopping at a failure. */
  function DebugTimes(raw: map<string, seq<Record>>, name: string, uri: string, k: nat): (map<string, seq<Record>>, bool) {
    if k == 0 then (raw, true)
    else
      var prev := DebugTimes(raw, name, uri, k - 1);
      if !prev.1 then prev else DebugAdd(prev.0, name, uri)
  }

  /** Repeating the debug merge `k >= 1` times merges the uri `k` times into the name's list. */
  lemma {:induction false} DebugTimesObserves(raw: map<string, seq<Record>>, name: string, uri: string, k: nat)
    requires k >= 1 && ObserveTimes(RawList(raw, name), uri, k).Some?
    ensures DebugTimes(raw, name, uri, k).1 && name in DebugTimes(raw, name, uri, k).0
    ensures DebugTimes(raw, name, uri, k).0[name] == ObserveTimes(RawList(raw, name), uri, k).value
  {
    var l0 := RawList(raw, name);
    if k == 1 {
      assert ObserveTimes(l0, uri, 1) == Observe(l0, uri);
    } else {
      var l := ObserveTimes(l0, uri, k - 1).value;
      DebugTimesObserves(raw, name, uri, k - 1);
      var prev := DebugTimes(raw, name, uri, k - 1);
      assert prev.0[name] == l;
      assert ObserveTimes(l0, uri, k) == Observe(l, uri);
    }
  }

  /**
   * In debug mode, the same uri sent `k >= 1` times for a name whose list did
   * not hold it ends up once, last in `raw_channels[name]`, with count `2^k - 1`.
   */
  lemma DebugRepeatedUriCount(raw: map<string, seq<Record>>, name: string, uri: string, k: nat)
    requires k >= 1 && UniqueUris(RawList(raw, name)) && !HasUri(RawList(raw, name), uri)
    requires Urls.UrlIsIpv6(uri).Some?
    ensures var r := DebugTimes(raw, name, uri, k);
      var l := RawList(raw, name);
      r.1 && name in r.0 && |r.0[name]| == |l| + 1 && r.0[name][..|l|] == l
      && r.0[name][|l|] == Record(uri, Pow2(k) - 1, Urls.UrlIsIpv6(uri).value)
  {
    ObserveTimesCount(RawList(raw, name), uri, k);
    DebugTimesObserves(raw, name, uri, k);
  }

  // ----- Folding the calls of the fetched documents -----

  /** The calls of one document, in order, stopping at the first that raises. */
  function ApplyCalls(t: Tables, calls: seq<Sources.Call>, simplify: string -> string,
                      channelMap: map<string, string>, debug: bool): (Tables, bool)
  {
    if calls == [] then (t, true)
    else CallStep(ApplyCalls(t, calls[..|calls| - 1], simplify, channelMap, debug), calls[|calls| - 1], simplify, channelMap, debug)
  }

  /** One call, unless an earlier one raised. */
  function CallStep(prev: (Tables, bool), c: Sources.Call, simplify: string -> string,
                    channelMap: map<string, string>, debug: bool): (Tables, bool)
  {
    if !prev.1 then prev else AddChannel(prev.0, c.name, c.uri, simplify, channelMap, debug)
  }

  /** The state `fetch_sources` carries from one document to the next. */
  datatype Fetch = Fetch(tables: Tables, name: Option<string>, ok: bool)

  /**
   * `fetch_sources` over the fetched documents: None stands for a source
   * whose fetch failed, which is skipped. The run stops at the first call
   * that raises or at an address line with no channel name bound.
   */
  function FetchAll(docs: seq<Option<seq<string>>>, t: Tables, simplify: string -> string,
                    channelMap: map<string, string>, debug: bool): Fetch
  {
    if docs == [] then Fetch(t, None, true)
    else FetchStep(FetchAll(docs[..|docs| - 1], t, simplify, channelMap, debug), docs[|docs| - 1], simplify, channelMap, debug)
  }

  /** One turn of the loop over the sources. */
  function FetchStep(prev: Fetch, doc: Option<seq<string>>, simplify: string -> string,
                     channelMap: map<string, string>, debug: bool): Fetch
  {
    if !prev.ok then prev
    else match doc
      case None => prev
      case Some(lines) => ApplyScanned(prev.tables, Sources.ScanDocument(lines, [], prev.name), simplify, channelMap, debug)
  }

  /** The calls of a scanned document applied, then its own failure and its last name bound. */
  function ApplyScanned(t: Tables, sc: Sources.Scan, simplify: string -> string,
                        channelMap: map<string, string>, debug: bool): Fetch
  {
    var applied := ApplyCalls(t, sc.calls, simplify, channelMap, debug);
    Fetch(applied.0, sc.name, applied.1 && !sc.failed)
  }

  lemma {:induction false} ApplyCallsKeeps(t: Tables, calls: seq<Sources.Call>, simplify: string -> string,
                                           channelMap: map<string, string>, debug: bool)
    requires Good(t.channels) && Good(t.raw)
    ensures var r := ApplyCalls(t, calls, simplify, channelMap, debug).0;
      r.channels.Keys == t.channels.Keys && Good(r.channels) && Good(r.raw) && (!debug ==> r.raw == t.raw)
  {
    if calls != [] {
      var prev := ApplyCalls(t, calls[..|calls| - 1], simplify, channelMap, debug);
      ApplyCallsKeeps(t, calls[..|calls| - 1], simplify, channelMap, debug);
      var c := calls[|calls| - 1];
      AddChannelKeeps(prev.0, c.name, c.uri, simplify, channelMap, debug);
    }
  }

  /**
   * Fetching never adds or removes a wanted channel, and every list stays
   * good: distinct uris, no `$`, counts of at least 1.
   */
  lemma {:induction false} FetchAllKeeps(docs: seq<Option<seq<string>>>, t: Tables, simplify: string -> string,
                                         channelMap: map<string, string>, debug: bool)
    requires Good(t.channels) && Good(t.raw)
    ensures var r := FetchAll(docs, t, simplify, channelMap, debug).tables;
      r.channels.Keys == t.channels.Keys && Good(r.channels) && Good(r.raw) && (!debug ==> r.raw == t.raw)
  {
    if docs != [] {
      var prev := FetchAll(docs[..|docs| - 1], t, simplify, channelMap, debug);
      FetchAllKeeps(docs[..|docs| - 1], t, simplify, channelMap, debug);
      assert FetchAll(docs, t, simplify, channelMap, debug) == FetchStep(prev, docs[|docs| - 1], simplify, channelMap, debug);
      FetchStepKeeps(prev, docs[|docs| - 1], simplify, channelMap, debug);
    }
  }

  lemma FetchStepKeeps(prev: Fetch, doc: Option<seq<string>>, simplify: string -> string,
                       channelMap: map<string, string>, debug: bool)
    requires Good(prev.tables.channels) && Good(prev.tables.raw)
    ensures var r := FetchStep(prev, doc, simplify, channelMap, debug).tables;
      r.channels.Keys == prev.tables.channels.Keys && Good(r.channels) && Good(r.raw)
      && (!debug ==> r.raw == prev.tables.raw)
  {
    if prev.ok && doc.Some? {
      var sc := Sources.ScanDocument(doc.value, [], prev.name);
      ApplyCallsKeeps(prev.tables, sc.calls, simplify, channelMap, debug);
    }
  }
  lemma ApplyCallsSnoc(t: Tables, calls: seq<Sources.Call>, j: nat, simplify: string -> string,
                       channelMap: map<string, string>, debug: bool)
    requires j < |calls|
    ensures ApplyCalls(t, calls[..j + 1], simplify, channelMap, debug)
      == CallStep(ApplyCalls(t, calls[..j], simplify, channelMap, debug), calls[j], simplify, channelMap, debug)
  {
    assert calls[..j + 1][..j] == calls[..j];
  }

  /** Once a call raises, the later calls of the document are not run. */
  lemma {:induction false} ApplyCallsStops(t: Tables, calls: seq<Sources.Call>, simplify: string -> string,
                                           channelMap: map<string, string>, debug: bool, j: nat)
    requires j <= |calls| && !ApplyCalls(t, calls[..j], simplify, channelMap, debug).1
    ensures ApplyCalls(t, calls, simplify, channelMap, debug) == ApplyCalls(t, calls[..j], simplify, channelMap, debug)
    decreases |calls|
  {
    if j < |calls| {
      var p := calls[..|calls| - 1];
      assert p[..j] == calls[..j];
      ApplyCallsStops(t, p, simplify, channelMap, debug, j);
    } else {
      assert calls[..j] == calls;
    }
  }

  /** The calls made until the end or until one raises give the result of the whole document. */
  lemma ApplyCallsDone(t: Tables, calls: seq<Sources.Call>, j: nat, simplify: string -> string,
                       channelMap: map<string, string>, debug: bool)
    requires j <= |calls| && (j == |calls| || !ApplyCalls(t, calls[..j], simplify, channelMap, debug).1)
    ensures ApplyCalls(t, calls, simplify, channelMap, debug) == ApplyCalls(t, calls[..j], simplify, channelMap, debug)
  {
    if j == |calls| {
      assert calls[..j] == calls;
    } else {
      ApplyCallsStops(t, calls, simplify, channelMap, debug, j);
    }
  }

  /** The documents up to `i` are those before it, then document `i`. */
  lemma FetchAllSnoc(docs: seq<Option<seq<string>>>, i: nat, t: Tables, simplify: string -> string,
                     channelMap: map<string, string>, debug: bool)
    requires i < |docs|
    ensures FetchAll(docs[..i + 1], t, simplify, channelMap, debug)
      == FetchStep(FetchAll(docs[..i], t, simplify, channelMap, debug), docs[i], simplify, channelMap, debug)
  {
    assert docs[..i + 1][..i] == docs[..i];
  }

  /** Once a document stops the run, the later documents are not read. */
  lemma {:induction false} FetchAllStops(docs: seq<Option<seq<string>>>, t: Tables, simplify: string -> string,
                                         channelMap: map<string, string>, debug: bool, i: nat)
    requires i <= |docs| && !FetchAll(docs[..i], t, simplify, channelMap, debug).ok
    ensures FetchAll(docs, t, simplify, channelMap, debug) == FetchAll(docs[..i], t, simplify, channelMap, debug)
    decreases |docs|
  {
    if i < |docs| {
      var p := docs[..|docs| - 1];
      assert p[..i] == docs[..i];
      FetchAllStops(p, t, simplify, channelMap, debug, i);
    } else {
      assert docs[..i] == docs;
    }
  }

  /** The documents read until the end or until one stops the run give the result of the whole run. */
  lemma FetchAllDone(docs: seq<Option<seq<string>>>, i: nat, t: Tables, simplify: string -> string,
                     channelMap: map<string, string>, debug: bool)
    requires i <= |docs| && (i == |docs| || !FetchAll(docs[..i], t, simplify, channelMap, debug).ok)
    ensures FetchAll(docs, t, simplify, channelMap, debug) == FetchAll(docs[..i], t, simplify, channelMap, debug)
  {
    if i == |docs| {
      assert docs[..i] == docs;
    } else {
      FetchAllStops(docs, t, simplify, channelMap, debug, i);
    }
  }
}
