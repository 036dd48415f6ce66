/**
 * The `IPTV` object of iptv.py: the wanted channels and their categories
 * read from the channel list, the per-channel address lists filled from
 * the sources, and the queries and sort the exporters use.
 */
module Aggregator {
  import opened Wrappers
  import opened OrderedSets
  import opened Text
  import Catalog
  import Sources
  import Urls
  import opened Registry
  import Merge

  class Iptv {
    /** `raw_channels`: every source name and uri seen, in debug mode. */
    var rawChannels: map<string, seq<Record>>
    /** `channels`: the address lists of the wanted channels. */
    var channels: map<string, seq<Record>>
    /** The keys of `channels`, in insertion order. */
    var channelNames: seq<string>
    /** The keys of `channel_cates`, in insertion order. */
    var cateNames: seq<string>
    /** `channel_cates`: each category's channel names. */
    var cates: map<string, OrderedSet<string>>
    /** The `channel_map` option: source names to wanted names. */
    const channelMap: map<string, string>
    /** Traditional-to-simplified conversion (`zhconv.convert`). */
    const simplify: string -> string
    /** The `DEBUG` switch. */
    const debug: bool

    ghost function Sets(): set<OrderedSet<string>>
      reads this`cates
    {
      set k | k in cates :: cates[k]
    }

    /** Each category's channel names, in set order. */
    ghost function CateSets(): map<string, seq<string>>
      reads this`cates, Sets()
    {
      map k | k in cates :: cates[k].elems
    }

    /** The catalog as `load_channels` sees it on entry (`current = ''`). */
    ghost function Loaded(): Catalog.State
      reads this`cates, this`cateNames, this`channelNames, Sets()
    {
      Catalog.State(cateNames, CateSets(), channelNames, [])
    }

    /** The keys of `channels` are listed once, and every address list is good. */
    ghost predicate TablesOk()
      reads this`channels, this`rawChannels, this`channelNames
    {
      (forall n :: n in channels <==> n in channelNames) && NoDup(channelNames)
      && Merge.Good(channels) && Merge.Good(rawChannels)
    }

    /** The categories are listed once, own distinct valid sets, and name listed channels only. */
    ghost predicate CatesOk()
      reads this`cates, this`cateNames, this`channelNames, Sets()
    {
      (forall k :: k in cates <==> k in cateNames) && NoDup(cateNames)
      && SetsOk()
      && (forall k, i :: k in cates && 0 <= i < |cates[k].elems| ==> cates[k].elems[i] in channelNames)
    }

    ghost predicate Valid()
      reads this, Sets()
    {
      TablesOk() && CatesOk()
    }

    /** A valid object is a catalog whose keys are listed once and whose sets name wanted channels. */
    lemma ValidLoaded()
      requires Valid()
      ensures Catalog.KeysListed(Loaded()) && Catalog.Closed(Loaded())
    {
      var c := Loaded();
      forall k | k in c.sets ensures NoDup(c.sets[k]) {
        assert cates[k].Valid();
      }
      forall k, i | k in c.sets && 0 <= i < |c.sets[k]| ensures c.sets[k][i] in c.chans {
        assert cates[k].elems[i] in channelNames;
      }
    }

    /** `IPTV()`: nothing loaded yet. */
    constructor (channelMap: map<string, string>, simplify: string -> string, debug: bool)
      ensures Valid()
      ensures rawChannels == map[] && channels == map[] && channelNames == [] && cateNames == [] && cates == map[]
      ensures this.channelMap == channelMap && this.simplify == simplify && this.debug == debug
    {
      rawChannels := map[];
      channels := map[];
      channelNames := [];
      cateNames := [];
      cates := map[];
      this.channelMap := channelMap;
      this.simplify := simplify;
      this.debug := debug;
    }

    /** The category sets are valid and no two categories share one. */
    ghost predicate SetsOk()
      reads this`cates, Sets()
    {
      (forall k :: k in cates ==> cates[k].Valid())
      && (forall k, m :: k in cates && m in cates && k != m ==> cates[k] != cates[m])
    }

    /** The object holds the catalog `c`. */
    ghost predicate Holds(c: Catalog.State)
      reads this`cates, this`cateNames, this`channelNames, Sets()
    {
      cateNames == c.cateNames && CateSets() == c.sets && channelNames == c.chans
    }

    /** A `CATE:` line: `channel_cates.setdefault(n, OrderedSet())`. */
    method OpenCategory(n: string, ghost before: Catalog.State)
      requires SetsOk() && Holds(before) && Catalog.Wf(before)
      modifies this`cates, this`cateNames
      ensures SetsOk() && Holds(Catalog.LoadStep(before, Catalog.Cate(n)))
      ensures forall k :: k in cates ==> (k in old(cates) && cates[k] == old(cates)[k]) || fresh(cates[k])
    {
      if n !in cates {
        NewCategory(n);
        assert CateSets() == before.sets[n := []];
      }
      cateNames := AddLast(cateNames, n);
    }

    /** A fresh empty set under the new category `n`. */
    method NewCategory(n: string)
      requires SetsOk() && n !in cates
      modifies this`cates
      ensures SetsOk() && n in cates && fresh(cates[n]) && cates[n].elems == []
      ensures forall k :: k in old(cates) ==> k in cates && cates[k] == old(cates)[k]
      ensures cates.Keys == old(cates).Keys + {n}
      ensures CateSets() == old(CateSets())[n := []]
    {
      var s := new OrderedSet<string>([]);
      cates := cates[n := s];
    }

    /** A channel line under the open category `current`. */
    method AddEntry(current: string, line: string, ghost before: Catalog.State)
      requires SetsOk() && Holds(before) && Catalog.Wf(before) && before.current == current && current != []
      requires forall n :: n in channels <==> n in channelNames
      modifies this`channels, this`channelNames, cates[current]
      ensures SetsOk() && Holds(Catalog.LoadStep(before, Catalog.Entry(line)))
      ensures forall n :: n in channels <==> n in channelNames
      ensures Merge.Extends(old(channels), channels)
    {
      AddToCategory(current, line);
      channelNames := AddLast(channelNames, line);
      if line !in channels {
        channels := channels[line := []];
      }
    }

    /** `channel_cates[current].add(line)`: only that category's set changes. */
    method AddToCategory(current: string, line: string)
      requires SetsOk() && current in cates
      modifies cates[current]
      ensures SetsOk()
      ensures CateSets() == old(CateSets())[current := AddLast(old(CateSets())[current], line)]
    {
      var s := cates[current];
      s.Add(line);
      forall k | k in cates ensures CateSets()[k] == old(CateSets())[current := AddLast(old(CateSets())[current], line)][k] {
        if k != current {
          assert cates[k] != s;
        }
      }
    }

    /** One turn of the `load_channels` loop: the line `raw` read with `current` open. */
    method LoadLine(raw: string, current: string, ghost before: Catalog.State) returns (next: string)
      requires SetsOk() && Holds(before) && Catalog.Wf(before) && before.current == current
      requires forall n :: n in channels <==> n in channelNames
      modifies this`cates, this`cateNames, this`channels, this`channelNames, Sets()
      ensures SetsOk() && Holds(Catalog.LoadStep(before, Catalog.ClassifyCatalog(raw)))
      ensures next == Catalog.LoadStep(before, Catalog.ClassifyCatalog(raw)).current
      ensures forall k :: k in cates ==> cates[k] in old(Sets()) || fresh(cates[k])
      ensures forall n :: n in channels <==> n in channelNames
      ensures Merge.Extends(old(channels), channels)
    {
      next := current;
      var line := Strip(raw);
      if line == [] || line[0] == '#' {
      } else if StartsWith(line, "CATE:") {
        next := Strip(line[5..]);
        OpenCategory(next, before);
      } else if current != [] {
        AddEntry(current, line, before);
      }
    }

    /**
     * `load_channels()` over the lines of the channel list: the result is
     * the catalog fold, and every new wanted channel starts with an empty
     * address list.
     */
    method LoadChannels(lines: seq<string>)
      requires Valid()
      modifies this, Sets()
      ensures Valid()
      ensures Holds(Catalog.LoadAll(Catalog.CatalogKinds(lines), old(Loaded())))
      ensures Merge.Extends(old(channels), channels)
      ensures rawChannels == old(rawChannels)
    {
      ghost var start := Loaded();
      ValidLoaded();
      LoadLines(lines, start);
      Catalog.LoadAllClosed(Catalog.CatalogKinds(lines), start);
      CatesFrom(Catalog.LoadAll(Catalog.CatalogKinds(lines), start));
      Merge.ExtendsGood(old(channels), channels);
    }

    /** The loop of `load_channels`, from the catalog `start` with `current = ''`. */
    method LoadLines(lines: seq<string>, ghost start: Catalog.State)
      requires SetsOk() && Holds(start) && start.current == []
      requires forall n :: n in channels <==> n in channelNames
      modifies this`cates, this`cateNames, this`channels, this`channelNames, Sets()
      ensures SetsOk() && Holds(Catalog.LoadAll(Catalog.CatalogKinds(lines), start))
      ensures forall n :: n in channels <==> n in channelNames
      ensures Merge.Extends(old(channels), channels)
    {
      ghost var ks := Catalog.CatalogKinds(lines);
      var current: string := [];
      var i := 0;
      while i < |lines|
        invariant 0 <= i <= |lines|
        invariant Holds(Catalog.LoadAll(ks[..i], start)) && current == Catalog.LoadAll(ks[..i], start).current
        invariant SetsOk()
        invariant forall k :: k in cates ==> cates[k] in old(Sets()) || fresh(cates[k])
        invariant forall n :: n in channels <==> n in channelNames
        invariant Merge.Extends(old(channels), channels)
      {
        Catalog.LoadAllSnoc(ks, i, start);
        var k := Catalog.ClassifyCatalog(lines[i]);
        assert k == ks[i];
        current := LoadLine(lines[i], current, Catalog.LoadAll(ks[..i], start));
        i := i + 1;
      }
      assert ks[..|lines|] == ks;
    }

    /** Holding a closed catalog with its keys listed once makes the categories consistent. */
    lemma CatesFrom(st: Catalog.State)
      requires SetsOk() && Holds(st) && Catalog.KeysListed(st) && Catalog.Closed(st)
      ensures CatesOk() && NoDup(channelNames)
    {
      assert forall k :: k in cates <==> k in CateSets();
      forall k, j | k in cates && 0 <= j < |cates[k].elems| ensures cates[k].elems[j] in channelNames {
        assert cates[k].elems[j] == st.sets[k][j];
      }
    }

    /** `add_channel_for_debug(name, uri)`: false where `is_ipv6` raises. */
    method AddChannelForDebug(name: string, uri: string) returns (ok: bool)
      modifies this`rawChannels
      ensures (rawChannels, ok) == Merge.DebugAdd(old(rawChannels), name, uri)
    {
      if name !in rawChannels {
        rawChannels := rawChannels[name := []];
      }
      var l := rawChannels[name];
      var i := FindUri(l, uri);
      assert i == UriIndex(l, uri);
      if i < |l| {
        rawChannels := rawChannels[name := l[i := Bump(l[i])]];
        ok := true;
        return;
      }
      var v6 := Urls.UrlIsIpv6(uri);
      if v6.None? {
        ok := false;
        return;
      }
      rawChannels := rawChannels[name := l + [Record(uri, 1, v6.value)]];
      ok := true;
    }

    /** Lines 289-307 of `add_channel_uri`, for the resolved name `n` and the cut uri `u`. */
    method MergeUri(n: string, u: string) returns (ok: bool)
      modifies this`channels
      ensures Merge.MergeInto(old(channels), n, u) == (if ok then Some(channels) else None)
      ensures !ok ==> channels == old(channels)
    {
      if n !in channels {
        return true;
      }
      var url := Urls.NormalizedUrl(u);
      if url.None? {
        return false;
      }
      var l := channels[n];
      var i := FindUri(l, url.value);
      assert i == UriIndex(l, url.value);
      if i < |l| {
        channels := channels[n := l[i := Bump(l[i])]];
        return true;
      }
      var v6 := Urls.UrlIsIpv6(url.value);
      if v6.None? {
        return false;
      }
      channels := channels[n := l + [Record(url.value, 1, v6.value)]];
      ok := true;
    }

    /** `add_channel_uri(name, uri)`: false where the Python raises. */
    method AddChannelUri(name: string, uri: string) returns (ok: bool)
      modifies this`channels, this`rawChannels
      ensures (Merge.Tables(channels, rawChannels), ok)
        == Merge.AddChannel(Merge.Tables(old(channels), old(rawChannels)), name, uri, simplify, channelMap, debug)
    {
      var u := CutAtDollar(uri);
      ok := true;
      if debug {
        ok := AddChannelForDebug(name, u);
      }
      if ok {
        var n := ResolveName(name, simplify, channelMap);
        ok := MergeUri(n, u);
      }
    }

    /** The call after the first `j` of a scanned document, made while none of those has raised. */
    method ApplyNext(ghost t: Merge.Tables, calls: seq<Sources.Call>, j: nat) returns (ok: bool)
      requires j < |calls|
      requires Merge.ApplyCalls(t, calls[..j], simplify, channelMap, debug) == (Merge.Tables(channels, rawChannels), true)
      modifies this`channels, this`rawChannels
      ensures Merge.ApplyCalls(t, calls[..j + 1], simplify, channelMap, debug) == (Merge.Tables(channels, rawChannels), ok)
    {
      Merge.ApplyCallsSnoc(t, calls, j, simplify, channelMap, debug);
      ok := AddChannelUri(calls[j].name, calls[j].uri);
    }

    /** The calls of one scanned document, in order, stopping at the first that raises. */
    method ApplyScan(calls: seq<Sources.Call>) returns (ok: bool)
      modifies this`channels, this`rawChannels
      ensures (Merge.Tables(channels, rawChannels), ok)
        == Merge.ApplyCalls(Merge.Tables(old(channels), old(rawChannels)), calls, simplify, channelMap, debug)
    {
      ghost var t := Merge.Tables(channels, rawChannels);
      var j: nat := 0;
      ok := true;
      while j < |calls| && ok
        invariant j <= |calls|
        invariant Merge.ApplyCalls(t, calls[..j], simplify, channelMap, debug) == (Merge.Tables(channels, rawChannels), ok)
      {
        ok := ApplyNext(t, calls, j);
        j := j + 1;
      }
      Merge.ApplyCallsDone(t, calls, j, simplify, channelMap, debug);
    }

    /** One fetched document: scanned, then its calls applied. */
    method FetchOne(lines: seq<string>, name: Option<string>) returns (ok: bool, next: Option<string>)
      modifies this`channels, this`rawChannels
      ensures Merge.ApplyScanned(Merge.Tables(old(channels), old(rawChannels)), Sources.ScanDocument(lines, [], name), simplify, channelMap, debug)
        == Merge.Fetch(Merge.Tables(channels, rawChannels), next, ok)
    {
      var sc := Sources.ScanSource(lines, [], name);
      ok := ApplyScan(sc.calls);
      ok := ok && !sc.failed;
      next := sc.name;
    }

    /** Source `i` of `fetch_sources`, read while no earlier one has stopped the run. */
    method FetchNext(ghost t: Merge.Tables, docs: seq<Option<seq<string>>>, i: nat, name: Option<string>)
      returns (ok: bool, next: Option<string>)
      requires i < |docs|
      requires Merge.FetchAll(docs[..i], t, simplify, channelMap, debug) == Merge.Fetch(Merge.Tables(channels, rawChannels), name, true)
      modifies this`channels, this`rawChannels
      ensures Merge.FetchAll(docs[..i + 1], t, simplify, channelMap, debug) == Merge.Fetch(Merge.Tables(channels, rawChannels), next, ok)
    {
      Merge.FetchAllSnoc(docs, i, t, simplify, channelMap, debug);
      match docs[i]
      case None =>
        ok, next := true, name;
      case Some(lines) =>
        ok, next := FetchOne(lines, name);
    }

    /**
     * `fetch_sources()` over the fetched documents (None for a source
     * whose fetch failed): false where the Python raises.
     */
    method FetchSources(docs: seq<Option<seq<string>>>) returns (ok: bool)
      requires TablesOk()
      modifies this`channels, this`rawChannels
      ensures TablesOk()
      ensures var f := Merge.FetchAll(docs, Merge.Tables(old(channels), old(rawChannels)), simplify, channelMap, debug);
        channels == f.tables.channels && rawChannels == f.tables.raw && ok == f.ok
    {
      ghost var t := Merge.Tables(channels, rawChannels);
      var name: Option<string> := None;
      var i: nat := 0;
      ok := true;
      while i < |docs| && ok
        invariant i <= |docs|
        invariant Merge.FetchAll(docs[..i], t, simplify, channelMap, debug) == Merge.Fetch(Merge.Tables(channels, rawChannels), name, ok)
      {
        ok, name := FetchNext(t, docs, i, name);
        i := i + 1;
      }
      Merge.FetchAllDone(docs, i, t, simplify, channelMap, debug);
      Merge.FetchAllKeeps(docs, t, simplify, channelMap, debug);
    }

    /** `sort_channels()`: every list sorted by count, descending and stable. */
    method SortChannels()
      requires Valid()
      modifies this`channels
      ensures Valid()
      ensures channels.Keys == old(channels).Keys
      ensures forall k :: k in channels ==> channels[k] == SortByCount(old(channels)[k])
    {
      SortLists();
      Merge.SortAllGood(old(channels), channels);
    }

    /** The loop of `sort_channels` over the keys of `channels`. */
    method SortLists()
      requires (forall n :: n in channels <==> n in channelNames) && NoDup(channelNames)
      modifies this`channels
      ensures channels.Keys == old(channels).Keys
      ensures forall k :: k in channels ==> channels[k] == SortByCount(old(channels)[k])
    {
      var i := 0;
      while i < |channelNames|
        invariant 0 <= i <= |channelNames|
        invariant channels.Keys == old(channels).Keys
        invariant forall j :: 0 <= j < i ==> channels[channelNames[j]] == SortByCount(old(channels)[channelNames[j]])
        invariant forall j :: i <= j < |channelNames| ==> channels[channelNames[j]] == old(channels)[channelNames[j]]
      {
        var k := channelNames[i];
        assert forall j :: 0 <= j < |channelNames| && j != i ==> channelNames[j] != k;
        channels := channels[k := SortByCount(channels[k])];
        i := i + 1;
      }
      forall k | k in channels ensures channels[k] == SortByCount(old(channels)[k]) {
        var j :| 0 <= j < |channelNames| && channelNames[j] == k;
      }
    }

    /**
     * `enum_channel_uri(name, limit)`: the first `limit` records of the
     * channel (all of them when `limit` is not positive), numbered from 1;
     * nothing for an unknown name.
     */
    method EnumChannelUri(name: string, limit: int) returns (r: seq<(nat, Record)>)
      ensures name !in channels ==> r == []
      ensures name in channels ==>
        |r| == (if 0 < limit < |channels[name]| then limit else |channels[name]|)
        && forall i :: 0 <= i < |r| ==> r[i] == (i + 1, channels[name][i])
    {
      r := [];
      if name !in channels {
        return;
      }
      var l := channels[name];
      var index := 0;
      while index < |l|
        invariant 0 <= index <= |l| && |r| == index
        invariant 0 < limit ==> index <= limit
        invariant forall i :: 0 <= i < index ==> r[i] == (i + 1, l[i])
      {
        if 0 < limit && index >= limit {
          break;
        }
        r := r + [(index + 1, l[index])];
        index := index + 1;
      }
    }
  }
}
