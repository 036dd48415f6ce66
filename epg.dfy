/**
 * The list logic of the `EPG` object of epg.py: the channel-name map read
 * from its text file, the renaming of the guide's channels, the removal of
 * the channels the aggregator does not list (with their programmes), and
 * the rewrite of the guide's `generator-`/`source-info` attributes.
 *
 * The guide document is the list of the root's children, each a channel
 * (its `id` attribute and the text of its `display-name`), a programme (its
 * `channel` attribute) or any other element, and the root's attributes.
 */
module Guide {
  import opened Wrappers
  import opened Text
  import Config

  // ----- load_channel_name_map -----

  /**
   * The entries one line of the name-map file adds: none for a blank line
   * or one starting with `#`, otherwise `conv_dict` of the line cut at its
   * inline comment (None where that raises).
   */
  function LineDict(raw: string): (r: Option<map<string, string>>)
    ensures r.Some? ==> Config.StrippedEntries(r.value)
  {
    var line := Strip(raw);
    if line == [] || line[0] == '#' then Some(map[])
    else Config.ConvDict(Config.CleanInlineComment(line))
  }

  /** The entries of every line, in order. */
  function LineDicts(lines: seq<string>): (ds: seq<Option<map<string, string>>>)
    ensures |ds| == |lines| && forall j :: 0 <= j < |lines| ==> ds[j] == LineDict(lines[j])
  {
    seq(|lines|, j requires 0 <= j < |lines| => LineDict(lines[j]))
  }

  /** `map_.update(d)` for each line's entries `d` in turn, stopping at the first line that raises. */
  function Merged(ds: seq<Option<map<string, string>>>): (r: Option<map<string, string>>)
    ensures r.Some? && (forall j :: 0 <= j < |ds| && ds[j].Some? ==> Config.StrippedEntries(ds[j].value)) ==>
      Config.StrippedEntries(r.value)
  {
    if ds == [] then Some(map[])
    else match Merged(ds[..|ds| - 1])
      case None => None
      case Some(m) =>
        match ds[|ds| - 1]
        case None => None
        case Some(d) => Some(m + d)
  }

  /** `load_channel_name_map()` over the lines of the file. */
  function NameMap(lines: seq<string>): (r: Option<map<string, string>>)
    ensures r.Some? ==> Config.StrippedEntries(r.value)
  {
    Merged(LineDicts(lines))
  }

  lemma MergedSnoc(ds: seq<Option<map<string, string>>>, i: nat)
    requires i < |ds|
    ensures Merged(ds[..i + 1]) == match Merged(ds[..i])
      case None => None
      case Some(m) => (match ds[i] case None => None case Some(d) => Some(m + d))
  {
    assert ds[..i + 1][..i] == ds[..i];
  }

  lemma {:induction false} MergedStops(ds: seq<Option<map<string, string>>>, i: nat)
    requires i <= |ds| && Merged(ds[..i]).None?
    ensures Merged(ds).None?
    decreases |ds|
  {
    if i < |ds| {
      var p := ds[..|ds| - 1];
      assert p[..i] == ds[..i];
      MergedStops(p, i);
    } else {
      assert ds[..i] == ds;
    }
  }

  /** One line of the file: None where `conv_dict` raises. */
  method ReadMapLine(raw: string) returns (d: Option<map<string, string>>)
    ensures d == LineDict(raw)
  {
    var line := Strip(raw);
    if line == [] || line[0] == '#' {
      return Some(map[]);
    }
    line := Config.CleanInlineComment(line);
    d := Config.ConvDict(line);
  }

  /** The loop of `load_channel_name_map`: None where a line raises. */
  method LoadChannelNameMap(lines: seq<string>) returns (r: Option<map<string, string>>)
    ensures r == NameMap(lines)
  {
    ghost var ds := LineDicts(lines);
    var m: map<string, string> := map[];
    var i: nat := 0;
    var ok := true;
    while i < |lines| && ok
      invariant i <= |lines|
      invariant Merged(ds[..i]) == if ok then Some(m) else None
    {
      MergedSnoc(ds, i);
      var d := ReadMapLine(lines[i]);
      assert d == ds[i];
      if d.None? {
        ok := false;
      } else {
        m := m + d.value;
      }
      i := i + 1;
    }
    if ok {
      assert ds[..i] == ds;
      r := Some(m);
    } else {
      MergedStops(ds, i);
      r := None;
    }
  }

  lemma {:induction false} MergedFails(ds: seq<Option<map<string, string>>>)
    ensures Merged(ds).None? <==> exists j :: 0 <= j < |ds| && ds[j].None?
  {
    if ds != [] {
      var p := ds[..|ds| - 1];
      MergedFails(p);
      assert forall j :: 0 <= j < |p| ==> p[j] == ds[j];
      if ds[|ds| - 1].Some? && exists j :: 0 <= j < |ds| && ds[j].None? {
        var j :| 0 <= j < |ds| && ds[j].None?;
        assert j < |p| && p[j].None?;
      }
    }
  }

  lemma {:induction false} MergedKeys(ds: seq<Option<map<string, string>>>, k: string)
    requires Merged(ds).Some?
    ensures k in Merged(ds).value <==> exists j :: 0 <= j < |ds| && ds[j].Some? && k in ds[j].value
  {
    if ds != [] {
      var p := ds[..|ds| - 1];
      assert Merged(p).Some? && ds[|ds| - 1].Some?;
      MergedKeys(p, k);
      assert Merged(ds).value == Merged(p).value + ds[|ds| - 1].value;
      assert forall j :: 0 <= j < |p| ==> p[j] == ds[j];
      if exists j :: 0 <= j < |ds| && ds[j].Some? && k in ds[j].value {
        var j :| 0 <= j < |ds| && ds[j].Some? && k in ds[j].value;
        if j < |p| {
          assert p[j].Some? && k in p[j].value;
        }
      }
    }
  }

  lemma {:induction false} MergedLastWins(ds: seq<Option<map<string, string>>>, j: nat, k: string)
    requires Merged(ds).Some? && j < |ds| && ds[j].Some? && k in ds[j].value
    requires forall j' :: j < j' < |ds| && ds[j'].Some? ==> k !in ds[j'].value
    ensures k in Merged(ds).value && Merged(ds).value[k] == ds[j].value[k]
  {
    var p := ds[..|ds| - 1];
    assert Merged(p).Some? && ds[|ds| - 1].Some?;
    assert Merged(ds).value == Merged(p).value + ds[|ds| - 1].value;
    if j < |p| {
      assert p[j] == ds[j];
      assert forall j' :: j < j' < |p| ==> p[j'] == ds[j'];
      MergedLastWins(p, j, k);
    }
  }

  /** Reading the map fails exactly when one of its lines fails. */
  lemma NameMapFails(lines: seq<string>)
    ensures NameMap(lines).None? <==> exists j :: 0 <= j < |lines| && LineDict(lines[j]).None?
  {
    var ds := LineDicts(lines);
    MergedFails(ds);
    if exists j :: 0 <= j < |ds| && ds[j].None? {
      var j :| 0 <= j < |ds| && ds[j].None?;
      assert LineDict(lines[j]).None?;
    }
  }

  /** A key of the map is a key of some line, and every key of a line is in the map. */
  lemma NameMapKeys(lines: seq<string>, k: string)
    requires NameMap(lines).Some?
    ensures k in NameMap(lines).value <==>
      exists j :: 0 <= j < |lines| && LineDict(lines[j]).Some? && k in LineDict(lines[j]).value
  {
    var ds := LineDicts(lines);
    MergedKeys(ds, k);
    if k in NameMap(lines).value {
      var j :| 0 <= j < |ds| && ds[j].Some? && k in ds[j].value;
      assert LineDict(lines[j]) == ds[j];
    }
  }

  /** The last line that gives a key decides its value: a later line overrides an earlier one. */
  lemma NameMapLastWins(lines: seq<string>, j: nat, k: string)
    requires NameMap(lines).Some? && j < |lines|
    requires LineDict(lines[j]).Some? && k in LineDict(lines[j]).value
    requires forall j' :: j < j' < |lines| && LineDict(lines[j']).Some? ==> k !in LineDict(lines[j']).value
    ensures k in NameMap(lines).value && NameMap(lines).value[k] == LineDict(lines[j]).value[k]
  {
    MergedLastWins(LineDicts(lines), j, k);
  }

  /** Blank lines and `#` lines add nothing to the map. */
  lemma SkippedLine(raw: string)
    requires Strip(raw) == [] || Strip(raw)[0] == '#'
    ensures LineDict(raw) == Some(map[])
  {
  }

  // ----- The guide document -----

  /** A child of the guide's root. */
  datatype Node =
    | Channel(id: Option<string>, name: Option<string>)
    | Programme(channel: Option<string>)
    | Other

  /** `if ele.text in map_: ele.text = map_[ele.text]` for one child. */
  function Rename(n: Node, m: map<string, string>): (r: Node)
    ensures r.Channel? == n.Channel? && r.Programme? == n.Programme?
    ensures r != n ==> n.Channel? && n.name.Some? && n.name.value in m && r.name.Some? && r.name.value in m.Values
  {
    if n.Channel? && n.name.Some? && n.name.value in m then n.(name := Some(m[n.name.value])) else n
  }

  /** Every child renamed. */
  function RenameAll(nodes: seq<Node>, m: map<string, string>): (r: seq<Node>)
    ensures |r| == |nodes| && forall i :: 0 <= i < |nodes| ==> r[i] == Rename(nodes[i], m)
  {
    seq(|nodes|, i requires 0 <= i < |nodes| => Rename(nodes[i], m))
  }

  /**
   * Renaming keeps every child's kind and id; a channel gets the mapped name
   * exactly when its name is a key, through one lookup only (a mapped name
   * that is itself a key is not followed further), and nothing else changes.
   */
  lemma RenameOnce(n: Node, m: map<string, string>)
    ensures Rename(n, m).Channel? == n.Channel? && Rename(n, m).Programme? == n.Programme?
    ensures n.Channel? ==> Rename(n, m).id == n.id
    ensures n.Channel? && n.name.Some? && n.name.value in m ==> Rename(n, m).name == Some(m[n.name.value])
    ensures !(n.Channel? && n.name.Some? && n.name.value in m) ==> Rename(n, m) == n
  {
  }

  /** A channel with no display-name text is never renamed (`None in map_` is false). */
  lemma RenameNoText(id: Option<string>, m: map<string, string>)
    ensures Rename(Channel(id, None), m) == Channel(id, None)
  {
  }

  /** When no mapped name is itself a key, renaming twice is renaming once. */
  lemma RenameIdempotent(n: Node, m: map<string, string>)
    requires forall k :: k in m ==> m[k] !in m
    ensures Rename(Rename(n, m), m) == Rename(n, m)
  {
  }

  // ----- cleanup -----

  /** The channel `n` is listed by the aggregator (a missing text is not a key). */
  predicate Known(n: Node, keys: seq<string>)
    requires n.Channel?
  {
    n.name.Some? && n.name.value in keys
  }

  /** The children the first loop of `cleanup` leaves: every unlisted channel removed. */
  function KeptChannels(nodes: seq<Node>, keys: seq<string>): seq<Node> {
    if nodes == [] then []
    else
      var n := nodes[|nodes| - 1];
      KeptChannels(nodes[..|nodes| - 1], keys) + (if n.Channel? && !Known(n, keys) then [] else [n])
  }

  /** `del_channel_ids`: the `id` of every removed channel, in order (None for a channel without one). */
  function RemovedIds(nodes: seq<Node>, keys: seq<string>): seq<Option<string>> {
    if nodes == [] then []
    else
      var n := nodes[|nodes| - 1];
      RemovedIds(nodes[..|nodes| - 1], keys) + (if n.Channel? && !Known(n, keys) then [n.id] else [])
  }

  /** `reserved_channel_names`: the names of the kept channels, in order. */
  function Reserved(nodes: seq<Node>, keys: seq<string>): seq<string> {
    if nodes == [] then []
    else
      var n := nodes[|nodes| - 1];
      Reserved(nodes[..|nodes| - 1], keys) + (if n.Channel? && Known(n, keys) then [n.name.value] else [])
  }

  /** The children the second loop leaves: every programme of a removed channel removed. */
  function DropProgrammes(nodes: seq<Node>, ids: seq<Option<string>>): seq<Node> {
    if nodes == [] then []
    else
      var n := nodes[|nodes| - 1];
      DropProgrammes(nodes[..|nodes| - 1], ids) + (if n.Programme? && n.channel in ids then [] else [n])
  }

  /** `non_existed_channels`: the listed names no channel kept, in key order. */
  function Missing(keys: seq<string>, reserved: seq<string>): seq<string> {
    if keys == [] then []
    else
      var k := keys[|keys| - 1];
      Missing(keys[..|keys| - 1], reserved) + (if k in reserved then [] else [k])
  }

  /** The children after `cleanup`. */
  function Cleaned(nodes: seq<Node>, keys: seq<string>): (r: seq<Node>)
    ensures forall x :: x in r ==> x in nodes && (x.Channel? ==> Known(x, keys))
  {
    CleanedFrom(nodes, keys);
    DropProgrammes(KeptChannels(nodes, keys), RemovedIds(nodes, keys))
  }

  lemma CleanedFrom(nodes: seq<Node>, keys: seq<string>)
    ensures forall x :: x in DropProgrammes(KeptChannels(nodes, keys), RemovedIds(nodes, keys)) ==>
      x in nodes && (x.Channel? ==> Known(x, keys))
  {
    var kept, ids := KeptChannels(nodes, keys), RemovedIds(nodes, keys);
    forall x | x in DropProgrammes(kept, ids) ensures x in nodes && (x.Channel? ==> Known(x, keys)) {
      DropProgrammesMembers(kept, ids, x);
      KeptChannelsMembers(nodes, keys, x);
    }
  }

  /** A child survives the first loop exactly when it is not an unlisted channel. */
  lemma {:induction false} KeptChannelsMembers(nodes: seq<Node>, keys: seq<string>, x: Node)
    ensures x in KeptChannels(nodes, keys) <==> x in nodes && !(x.Channel? && !Known(x, keys))
  {
    if nodes != [] {
      var p := nodes[..|nodes| - 1];
      KeptChannelsMembers(p, keys, x);
      assert nodes == p + [nodes[|nodes| - 1]];
    }
  }

  /** A programme survives the second loop exactly when its channel is not a removed id. */
  lemma {:induction false} DropProgrammesMembers(nodes: seq<Node>, ids: seq<Option<string>>, x: Node)
    ensures x in DropProgrammes(nodes, ids) <==> x in nodes && !(x.Programme? && x.channel in ids)
  {
    if nodes != [] {
      var p := nodes[..|nodes| - 1];
      DropProgrammesMembers(p, ids, x);
      assert nodes == p + [nodes[|nodes| - 1]];
    }
  }

  /** The removed ids are the ids of the unlisted channels. */
  lemma {:induction false} RemovedIdsMembers(nodes: seq<Node>, keys: seq<string>, x: Option<string>)
    ensures x in RemovedIds(nodes, keys) <==>
      exists i :: 0 <= i < |nodes| && nodes[i].Channel? && !Known(nodes[i], keys) && nodes[i].id == x
  {
    if nodes != [] {
      var p := nodes[..|nodes| - 1];
      RemovedIdsMembers(p, keys, x);
      assert forall i :: 0 <= i < |p| ==> p[i] == nodes[i];
      if exists i :: 0 <= i < |nodes| && nodes[i].Channel? && !Known(nodes[i], keys) && nodes[i].id == x {
        var i :| 0 <= i < |nodes| && nodes[i].Channel? && !Known(nodes[i], keys) && nodes[i].id == x;
        if i < |p| {
          assert p[i].Channel? && !Known(p[i], keys) && p[i].id == x;
        }
      }
    }
  }

  /** The reserved names are the listed names some channel carries. */
  lemma {:induction false} ReservedMembers(nodes: seq<Node>, keys: seq<string>, k: string)
    ensures k in Reserved(nodes, keys) <==> k in keys && HasChannelNamed(nodes, k)
  {
    if nodes != [] {
      var p := nodes[..|nodes| - 1];
      ReservedMembers(p, keys, k);
      assert forall i :: 0 <= i < |p| ==> p[i] == nodes[i];
      if HasChannelNamed(nodes, k) && !HasChannelNamed(p, k) {
        var i :| 0 <= i < |nodes| && nodes[i].Channel? && nodes[i].name == Some(k);
        assert i == |p|;
      }
    }
  }

  /** Some channel among `nodes` has the display-name text `k`. */
  predicate HasChannelNamed(nodes: seq<Node>, k: string) {
    exists i :: 0 <= i < |nodes| && nodes[i].Channel? && nodes[i].name == Some(k)
  }

  /** A listed name is reported missing exactly when it is not among the reserved names. */
  lemma {:induction false} MissingMembers(keys: seq<string>, reserved: seq<string>, k: string)
    ensures k in Missing(keys, reserved) <==> k in keys && k !in reserved
  {
    if keys != [] {
      var p := keys[..|keys| - 1];
      MissingMembers(p, reserved, k);
      assert keys == p + [keys[|keys| - 1]];
    }
  }

  /**
   * After `cleanup` every channel left is listed by the aggregator, and a
   * channel of the guide is left exactly when it is listed.
   */
  lemma CleanedChannels(nodes: seq<Node>, keys: seq<string>, x: Node)
    requires x.Channel?
    ensures x in Cleaned(nodes, keys) <==> x in nodes && Known(x, keys)
  {
    KeptChannelsMembers(nodes, keys, x);
    DropProgrammesMembers(KeptChannels(nodes, keys), RemovedIds(nodes, keys), x);
  }

  /**
   * A programme is removed exactly when its `channel` attribute is the id of
   * a removed channel; in particular a programme pointing at an id no
   * channel declares survives, and one without the attribute is removed
   * exactly when a removed channel had no id.
   */
  lemma CleanedProgrammes(nodes: seq<Node>, keys: seq<string>, x: Node)
    requires x.Programme?
    ensures x in Cleaned(nodes, keys) <==>
      x in nodes && !exists i :: 0 <= i < |nodes| && nodes[i].Channel? && !Known(nodes[i], keys) && nodes[i].id == x.channel
  {
    KeptChannelsMembers(nodes, keys, x);
    DropProgrammesMembers(KeptChannels(nodes, keys), RemovedIds(nodes, keys), x);
    RemovedIdsMembers(nodes, keys, x.channel);
  }

  /** The missing-channel report lists the listed names that no channel of the guide carries. */
  lemma MissingReport(nodes: seq<Node>, keys: seq<string>, k: string)
    ensures k in Missing(keys, Reserved(nodes, keys)) <==> k in keys && !HasChannelNamed(nodes, k)
  {
    MissingMembers(keys, Reserved(nodes, keys), k);
    ReservedMembers(nodes, keys, k);
  }

  /** The kept children are a selection of the children in their order. */
  lemma {:induction false} KeptChannelsOrder(nodes: seq<Node>, keys: seq<string>) returns (idx: seq<nat>)
    ensures |idx| == |KeptChannels(nodes, keys)|
    ensures forall a :: 0 <= a < |idx| ==> idx[a] < |nodes| && nodes[idx[a]] == KeptChannels(nodes, keys)[a]
    ensures forall a, b :: 0 <= a < b < |idx| ==> idx[a] < idx[b]
  {
    if nodes == [] {
      idx := [];
    } else {
      var p := nodes[..|nodes| - 1];
      var n := nodes[|nodes| - 1];
      var q := KeptChannelsOrder(p, keys);
      assert forall a :: 0 <= a < |q| ==> q[a] < |p| && nodes[q[a]] == p[q[a]];
      if n.Channel? && !Known(n, keys) {
        idx := q;
        assert KeptChannels(nodes, keys) == KeptChannels(p, keys) + [];
      } else {
        idx := q + [|p|];
      }
    }
  }

  // ----- normalize_extras -----

  /** The marker of the guide whose name and url attributes are written the wrong way round. */
  const Marker := "epg.51zmt.top"

  /** `EPG_SOURCE` when the environment does not set it. */
  const DefaultSource := "http://epg.51zmt.top:8000/e.xml.gz"

  const InfoNameKeys: seq<string> := ["generator-info-name", "info-name", "source-info-name"]
  const InfoUrlKeys: seq<string> := ["generator-info-url", "info-url", "source-info-url"]

  /** `ele.get(k)` is truthy: the attribute is there and not empty. */
  predicate Truthy(attrs: map<string, string>, k: string) {
    k in attrs && attrs[k] != []
  }

  /** `_existing_value(root, keys)`: the value of the first key whose attribute is truthy. */
  function ExistingValue(attrs: map<string, string>, keys: seq<string>): (r: Option<string>)
    ensures r.Some? ==> r.value != [] && r.value in attrs.Values
  {
    if keys == [] then None
    else if Truthy(attrs, keys[0]) then Some(attrs[keys[0]])
    else ExistingValue(attrs, keys[1..])
  }

  /** The lookup finds the first truthy key; None exactly when no key is truthy. */
  lemma {:induction false} ExistingValueFirst(attrs: map<string, string>, keys: seq<string>)
    ensures ExistingValue(attrs, keys).None? <==> forall i :: 0 <= i < |keys| ==> !Truthy(attrs, keys[i])
    ensures ExistingValue(attrs, keys).Some? ==>
      exists i :: 0 <= i < |keys| && Truthy(attrs, keys[i]) && ExistingValue(attrs, keys).value == attrs[keys[i]]
        && forall j :: 0 <= j < i ==> !Truthy(attrs, keys[j])
  {
    if keys != [] && !Truthy(attrs, keys[0]) {
      ExistingValueFirst(attrs, keys[1..]);
      assert forall i :: 1 <= i < |keys| ==> keys[i] == keys[1..][i - 1];
      if ExistingValue(attrs, keys).Some? {
        var i :| 0 <= i < |keys[1..]| && Truthy(attrs, keys[1..][i]) && ExistingValue(attrs, keys[1..]).value == attrs[keys[1..][i]]
          && forall j :: 0 <= j < i ==> !Truthy(attrs, keys[1..][j]);
        assert Truthy(attrs, keys[i + 1]) && forall j :: 0 <= j < i + 1 ==> !Truthy(attrs, keys[j]);
      }
    }
  }

  /**
   * `_normalize(n, u)`: the pair swapped when the url or the name holds the
   * marker. None where `'…' in u` or `'…' in n` raises TypeError on None
   * (the name is only examined when the url has no marker).
   */
  function Swap(n: Option<string>, u: Option<string>): (r: Option<(Option<string>, Option<string>)>)
    ensures r.Some? ==> r.value.0.Some?
  {
    match u
    case None => None
    case Some(us) =>
      if Contains(us, Marker) then Some((u, n))
      else match n
        case None => None
        case Some(ns) => if Contains(ns, Marker) then Some((u, n)) else Some((n, u))
  }

  /** Two present values are swapped exactly when one holds the marker; swapping is an involution. */
  lemma SwapPresent(a: string, b: string)
    ensures Swap(Some(a), Some(b)) == if Contains(a, Marker) || Contains(b, Marker) then Some((Some(b), Some(a))) else Some((Some(a), Some(b)))
    ensures Swap(Swap(Some(a), Some(b)).value.0, Swap(Some(a), Some(b)).value.1) == Some((Some(a), Some(b)))
  {
  }

  /** A missing url raises; a missing name raises unless the url holds the marker. */
  lemma SwapMissing(n: Option<string>, u: Option<string>)
    ensures Swap(n, u).None? <==> u.None? || (n.None? && !Contains(u.value, Marker))
  {
  }

  /** The root attributes `normalize_extras` writes, or None where `_normalize` raises. */
  function Extras(attrs: map<string, string>, now: string, source: string): (r: Option<map<string, string>>)
    ensures r.Some? ==>
      r.value.Keys == {"date", "generator-info-name", "generator-info-url", "source-info-name", "source-info-url"}
      && r.value["date"] == now
    ensures r.None? ==> ExistingValue(attrs, InfoUrlKeys).None? || ExistingValue(attrs, InfoNameKeys).None?
  {
    match Swap(ExistingValue(attrs, InfoNameKeys), ExistingValue(attrs, InfoUrlKeys))
    case None => None
    case Some(p) =>
      var url := if p.1.Some? && p.1.value != [] then p.1.value else source;
      Some(map["date" := now, "generator-info-name" := "JinnLynn/iptv",
               "generator-info-url" := "https://github.com/JinnLynn/iptv",
               "source-info-name" := p.0.value, "source-info-url" := url])
  }

  /**
   * When the guide names itself by name and url attributes, the new root
   * carries exactly the five attributes: the time, this project as
   * generator, and the guide's own name and url (put back the right way
   * round when the marker shows they were swapped), the url falling back to
   * the configured source.
   */
  lemma ExtrasFromInfo(attrs: map<string, string>, now: string, source: string, a: string, b: string)
    requires ExistingValue(attrs, InfoNameKeys) == Some(a) && ExistingValue(attrs, InfoUrlKeys) == Some(b)
    ensures Extras(attrs, now, source).Some?
    ensures var r := Extras(attrs, now, source).value;
      var swapped := Contains(a, Marker) || Contains(b, Marker);
      r.Keys == {"date", "generator-info-name", "generator-info-url", "source-info-name", "source-info-url"}
      && r["date"] == now && r["generator-info-name"] == "JinnLynn/iptv"
      && r["source-info-name"] == (if swapped then b else a)
      && r["source-info-url"] == (if swapped then (if a != [] then a else source) else (if b != [] then b else source))
  {
    SwapPresent(a, b);
  }

  /** A guide with no url attribute makes `normalize_extras` raise. */
  lemma ExtrasNoUrl(attrs: map<string, string>, now: string, source: string)
    requires forall i :: 0 <= i < |InfoUrlKeys| ==> !Truthy(attrs, InfoUrlKeys[i])
    ensures Extras(attrs, now, source).None?
  {
    ExistingValueFirst(attrs, InfoUrlKeys);
  }

  /** The `EPG` object: the guide document it rewrites. */
  class Epg {
    /** The children of the guide's root, in document order. */
    var nodes: seq<Node>
    /** The attributes of the guide's root. */
    var attrs: map<string, string>
    /** `EPG_SOURCE`. */
    const source: string

    /** The guide as parsed, with the configured source (`DefaultSource` unless the environment sets one). */
    constructor (nodes: seq<Node>, attrs: map<string, string>, source: string := DefaultSource)
      ensures this.nodes == nodes && this.attrs == attrs && this.source == source
    {
      this.nodes := nodes;
      this.attrs := attrs;
      this.source := source;
    }

    /** `convert_channel_name()`: false, with nothing renamed, where reading the map raises. */
    method ConvertChannelName(mapLines: seq<string>) returns (ok: bool)
      modifies this`nodes
      ensures ok == NameMap(mapLines).Some?
      ensures nodes == if ok then RenameAll(old(nodes), NameMap(mapLines).value) else old(nodes)
    {
      var m := LoadChannelNameMap(mapLines);
      if m.None? {
        return false;
      }
      var i := 0;
      while i < |nodes|
        invariant 0 <= i <= |nodes| == |old(nodes)|
        invariant forall j :: 0 <= j < i ==> nodes[j] == Rename(old(nodes)[j], m.value)
        invariant forall j :: i <= j < |nodes| ==> nodes[j] == old(nodes)[j]
      {
        var n := nodes[i];
        if n.Channel? && n.name.Some? && n.name.value in m.value {
          nodes := nodes[i := n.(name := Some(m.value[n.name.value]))];
        }
        i := i + 1;
      }
      return true;
    }

    /**
     * `cleanup(keys)`, `keys` being the key order of the aggregator's
     * `channels`: the channels it does not list and their programmes are
     * removed; the result is the report of the listed names without a
     * channel.
     */
    method Cleanup(keys: seq<string>) returns (missing: seq<string>)
      modifies this`nodes
      ensures nodes == Cleaned(old(nodes), keys)
      ensures missing == Missing(keys, Reserved(old(nodes), keys))
    {
      var orig := nodes;
      var kept: seq<Node> := [];
      var ids: seq<Option<string>> := [];
      var reserved: seq<string> := [];
      var i := 0;
      while i < |orig|
        invariant 0 <= i <= |orig|
        invariant kept == KeptChannels(orig[..i], keys) && ids == RemovedIds(orig[..i], keys)
        invariant reserved == Reserved(orig[..i], keys)
      {
        assert orig[..i + 1][..i] == orig[..i];
        var n := orig[i];
        if n.Channel? && !(n.name.Some? && n.name.value in keys) {
          ids := ids + [n.id];
        } else {
          if n.Channel? {
            reserved := reserved + [n.name.value];
          }
          kept := kept + [n];
        }
        i := i + 1;
      }
      assert orig[..|orig|] == orig;
      nodes := DropRemoved(kept, ids);
      missing := ReportMissing(keys, reserved);
    }

    /**
     * `normalize_extras(now)`, `now` being the formatted time: the root's
     * attributes replaced by the five it writes; false, with nothing
     * changed, where `_normalize` raises.
     */
    method NormalizeExtras(now: string) returns (ok: bool)
      modifies this`attrs
      ensures ok == Extras(old(attrs), now, source).Some?
      ensures attrs == if ok then Extras(old(attrs), now, source).value else old(attrs)
    {
      var infoName := ExistingValue(attrs, InfoNameKeys);
      var infoUrl := ExistingValue(attrs, InfoUrlKeys);
      var p := Swap(infoName, infoUrl);
      if p.None? {
        return false;
      }
      var url := if p.value.1.Some? && p.value.1.value != [] then p.value.1.value else source;
      attrs := map["date" := now, "generator-info-name" := "JinnLynn/iptv",
                   "generator-info-url" := "https://github.com/JinnLynn/iptv",
                   "source-info-name" := p.value.0.value, "source-info-url" := url];
      ok := true;
    }

    /**
     * `normalize()`: renaming, then `cleanup`, then `normalize_extras`;
     * false where one of them raises, the later ones then not run.
     */
    method Normalize(mapLines: seq<string>, keys: seq<string>, now: string) returns (ok: bool, missing: seq<string>)
      modifies this`nodes, this`attrs
      ensures NameMap(mapLines).None? ==> !ok && missing == [] && nodes == old(nodes) && attrs == old(attrs)
      ensures NameMap(mapLines).Some? ==>
        var renamed := RenameAll(old(nodes), NameMap(mapLines).value);
        nodes == Cleaned(renamed, keys) && missing == Missing(keys, Reserved(renamed, keys))
        && ok == Extras(old(attrs), now, source).Some?
        && attrs == if ok then Extras(old(attrs), now, source).value else old(attrs)
    {
      missing := [];
      ok := ConvertChannelName(mapLines);
      if !ok {
        return;
      }
      missing := Cleanup(keys);
      ok := NormalizeExtras(now);
    }
  }

  /** The programme loop of `cleanup`. */
  method DropRemoved(nodes: seq<Node>, ids: seq<Option<string>>) returns (r: seq<Node>)
    ensures r == DropProgrammes(nodes, ids)
  {
    r := [];
    var i := 0;
    while i < |nodes|
      invariant 0 <= i <= |nodes| && r == DropProgrammes(nodes[..i], ids)
    {
      assert nodes[..i + 1][..i] == nodes[..i];
      if !(nodes[i].Programme? && nodes[i].channel in ids) {
        r := r + [nodes[i]];
      }
      i := i + 1;
    }
    assert nodes[..|nodes|] == nodes;
  }

  /** The list comprehension of the missing-channel report. */
  method ReportMissing(keys: seq<string>, reserved: seq<string>) returns (r: seq<string>)
    ensures r == Missing(keys, reserved)
  {
    r := [];
    var i := 0;
    while i < |keys|
      invariant 0 <= i <= |keys| && r == Missing(keys[..i], reserved)
    {
      assert keys[..i + 1][..i] == keys[..i];
      if keys[i] !in reserved {
        r := r + [keys[i]];
      }
      i := i + 1;
    }
    assert keys[..|keys|] == keys;
  }
}
