/**
 * The per-channel address lists of iptv.py: a record per distinct uri with
 * the number of times it was seen (kept the way the code keeps it,
 * `count += count + 1`) and its IPv6 flag; the merge step of
 * `add_channel_uri`/`add_channel_for_debug`, the stable descending sort of
 * `sort_channels`, and the name resolution and uri cleaning that precede a
 * merge.
 */
module Registry {
  import opened Wrappers
  import opened Text
  import Urls
  import Names

  /** One entry of a channel's list: `{'uri': …, 'count': …, 'ipv6': …}`. */
  datatype Record = Record(uri: string, count: nat, ipv6: bool)

  /** `u['count'] += u['count'] + 1` */
  function Bump(r: Record): (b: Record)
    ensures b.uri == r.uri && b.ipv6 == r.ipv6 && b.count + 1 == 2 * (r.count + 1)
  {
    r.(count := r.count + r.count + 1)
  }

  /** No two records of a list share a uri. */
  ghost predicate UniqueUris(recs: seq<Record>) {
    forall i, j :: 0 <= i < j < |recs| ==> recs[i].uri != recs[j].uri
  }

  /** Some record of the list has this uri. */
  predicate HasUri(recs: seq<Record>, uri: string) {
    exists i :: 0 <= i < |recs| && recs[i].uri == uri
  }

  /** Position of the first record with this uri, or `|recs|`. */
  function UriIndex(recs: seq<Record>, uri: string): (i: nat)
    ensures i <= |recs| && (i < |recs| ==> recs[i].uri == uri)
    ensures forall j :: 0 <= j < i ==> recs[j].uri != uri
  {
    if recs == [] then 0
    else if recs[0].uri == uri then 0
    else
      var k := UriIndex(recs[1..], uri);
      assert forall j :: 1 <= j <= k ==> recs[j] == recs[1..][j - 1];
      1 + k
  }

  /** The search loop `for u in self.channels[name]: if u['uri'] == uri: …`. */
  method FindUri(recs: seq<Record>, uri: string) returns (i: nat)
    ensures i <= |recs| && (i < |recs| ==> recs[i].uri == uri)
    ensures forall j :: 0 <= j < i ==> recs[j].uri != uri
  {
    i := 0;
    while i < |recs| && recs[i].uri != uri
      invariant i <= |recs|
      invariant forall j :: 0 <= j < i ==> recs[j].uri != uri
    {
      i := i + 1;
    }
  }

  /**
   * Lines 303-307 (and 266-270): a known uri has its record bumped, an
   * unknown one is appended with count 1 and its IPv6 flag. None where
   * `is_ipv6` raises (the uri does not parse).
   */
  function Observe(recs: seq<Record>, uri: string): (r: Option<seq<Record>>)
    ensures r.None? <==> !HasUri(recs, uri) && Urls.UrlIsIpv6(uri).None?
    ensures r.Some? ==> HasUri(r.value, uri) && |r.value| == |recs| + (if HasUri(recs, uri) then 0 else 1)
  {
    var i := UriIndex(recs, uri);
    if i < |recs| then
      var l := recs[i := Bump(recs[i])];
      assert l[i].uri == uri;
      Some(l)
    else match Urls.UrlIsIpv6(uri)
      case None => None
      case Some(v6) =>
        var l := recs + [Record(uri, 1, v6)];
        assert l[|recs|].uri == uri;
        Some(l)
  }

  /** Bumping a known uri never fails, and touches that record only. */
  lemma ObserveKnown(recs: seq<Record>, uri: string, i: nat)
    requires i < |recs| && recs[i].uri == uri && UniqueUris(recs)
    ensures Observe(recs, uri) == Some(recs[i := Bump(recs[i])])
  {
    assert UriIndex(recs, uri) == i;
  }

  /** An unknown uri is appended last with count 1, exactly when it parses. */
  lemma ObserveUnknown(recs: seq<Record>, uri: string)
    requires !HasUri(recs, uri)
    ensures Observe(recs, uri).Some? <==> Urls.UrlIsIpv6(uri).Some?
    ensures Observe(recs, uri).Some? ==>
      Observe(recs, uri).value == recs + [Record(uri, 1, Urls.UrlIsIpv6(uri).value)]
  {
  }

  /** A merge keeps the uris distinct and adds exactly `uri` to them. */
  lemma ObserveUnique(recs: seq<Record>, uri: string)
    requires UniqueUris(recs) && Observe(recs, uri).Some?
    ensures UniqueUris(Observe(recs, uri).value)
    ensures forall u :: HasUri(Observe(recs, uri).value, u) <==> HasUri(recs, u) || u == uri
  {
    var r := Observe(recs, uri).value;
    var i := UriIndex(recs, uri);
    if i < |recs| {
      assert forall j :: 0 <= j < |r| ==> r[j].uri == recs[j].uri;
    } else {
      assert forall j :: 0 <= j < |recs| ==> r[j] == recs[j];
      assert r[|recs|].uri == uri;
    }
  }

  /** `k` merges of the same uri, one after another (None once one fails). */
  function ObserveTimes(recs: seq<Record>, uri: string, k: nat): Option<seq<Record>> {
    if k == 0 then Some(recs)
    else match ObserveTimes(recs, uri, k - 1)
      case None => None
      case Some(r) => Observe(r, uri)
  }

  function Pow2(k: nat): (p: nat)
    ensures p >= 1
  {
    if k == 0 then 1 else 2 * Pow2(k - 1)
  }

  /**
   * After `k` merges of a uri the list did not hold, its record sits last,
   * with count `2^k - 1` and the IPv6 flag it was appended with.
   */
  lemma {:induction false} ObserveTimesCount(recs: seq<Record>, uri: string, k: nat)
    requires k >= 1 && UniqueUris(recs) && !HasUri(recs, uri) && Urls.UrlIsIpv6(uri).Some?
    ensures ObserveTimes(recs, uri, k).Some?
    ensures var r := ObserveTimes(recs, uri, k).value;
      |r| == |recs| + 1 && r[..|recs|] == recs && r[|recs|] == Record(uri, Pow2(k) - 1, Urls.UrlIsIpv6(uri).value)
  {
    if k == 1 {
      ObserveUnknown(recs, uri);
    } else {
      ObserveTimesCount(recs, uri, k - 1);
      var r := ObserveTimes(recs, uri, k - 1).value;
      assert UniqueUris(r) by {
        forall i, j | 0 <= i < j < |r| ensures r[i].uri != r[j].uri {
          if j < |recs| {
            assert r[i] == recs[i] && r[j] == recs[j];
          } else {
            assert r[i] == recs[i];
          }
        }
      }
      ObserveKnown(r, uri, |recs|);
    }
  }

  // ----- Name and uri cleaning -----

  /** `re.sub(r'\$.*$', '', uri)`: the uri up to its first `$`. */
  function CutAtDollar(uri: string): (r: string)
    ensures '$' !in r && StartsWith(uri, r)
    ensures '$' !in uri ==> r == uri
    ensures |r| < |uri| ==> uri[|r|] == '$'
  {
    uri[..IndexOf(uri, '$')]
  }

  /** Lines 280-288: the cleaned name, then one lookup in the alias map (no chaining). */
  function ResolveName(name: string, simplify: string -> string, channelMap: map<string, string>): (r: string)
    ensures r == Names.CleanChannelName(name, simplify) || r in channelMap.Values
  {
    var n := Names.CleanChannelName(name, simplify);
    if n in channelMap then channelMap[n] else n
  }

  /**
   * The alias map is consulted once: when the cleaned name's alias is itself
   * a key with a different alias (`{a: b, b: c}` for `a`), the result is the
   * first alias, not the second.
   */
  lemma SingleAliasLookup(name: string, simplify: string -> string, channelMap: map<string, string>)
    requires var n := Names.CleanChannelName(name, simplify);
      n in channelMap && channelMap[n] in channelMap && channelMap[channelMap[n]] != channelMap[n]
    ensures var n := Names.CleanChannelName(name, simplify);
      ResolveName(name, simplify, channelMap) == channelMap[n]
      && ResolveName(name, simplify, channelMap) != channelMap[channelMap[n]]
  {
  }

  /** Only the cleaned name's own entry matters: two maps that agree there resolve alike. */
  lemma ResolveNameLocal(name: string, simplify: string -> string, m1: map<string, string>, m2: map<string, string>)
    requires var n := Names.CleanChannelName(name, simplify);
      (n in m1 <==> n in m2) && (n in m1 ==> m1[n] == m2[n])
    ensures ResolveName(name, simplify, m1) == ResolveName(name, simplify, m2)
  {
  }

  // ----- Ranking -----

  /** Counts never increase along the list. */
  ghost predicate SortedByCount(recs: seq<Record>) {
    forall i, j :: 0 <= i < j < |recs| ==> recs[i].count >= recs[j].count
  }

  /** The records with count `c`, in list order. */
  function WithCount(recs: seq<Record>, c: nat): seq<Record> {
    if recs == [] then []
    else (if recs[0].count == c then [recs[0]] else []) + WithCount(recs[1..], c)
  }

  /** `x` goes before the first record whose count is not larger. */
  function Insert(x: Record, recs: seq<Record>): (r: seq<Record>)
    ensures multiset(r) == multiset(recs) + multiset{x}
  {
    if recs == [] || recs[0].count <= x.count then [x] + recs
    else
      assert recs == [recs[0]] + recs[1..];
      [recs[0]] + Insert(x, recs[1..])
  }

  /**
   * `list.sort(key=lambda i: i['count'], reverse=True)`: Python's sort is
   * stable also when reversed, so equal counts keep their order.
   */
  function SortByCount(recs: seq<Record>): (r: seq<Record>)
    ensures multiset(r) == multiset(recs)
  {
    if recs == [] then []
    else
      assert recs == [recs[0]] + recs[1..];
      Insert(recs[0], SortByCount(recs[1..]))
  }

  /** A record of `Insert(x, recs)` is `x` or a record of `recs`. */
  lemma InsertMember(x: Record, recs: seq<Record>, j: nat)
    requires j < |Insert(x, recs)|
    ensures Insert(x, recs)[j] == x || Insert(x, recs)[j] in recs
  {
    assert Insert(x, recs)[j] in multiset(Insert(x, recs));
  }

  lemma {:induction false} InsertSorted(x: Record, recs: seq<Record>)
    requires SortedByCount(recs)
    ensures SortedByCount(Insert(x, recs))
  {
    if recs != [] && recs[0].count > x.count {
      var t := recs[1..];
      assert SortedByCount(t) by {
        forall i, j | 0 <= i < j < |t| ensures t[i].count >= t[j].count {
          assert t[i] == recs[i + 1] && t[j] == recs[j + 1];
        }
      }
      InsertSorted(x, t);
      var r := Insert(x, t);
      var s := [recs[0]] + r;
      assert Insert(x, recs) == s;
      forall i, j | 0 <= i < j < |s| ensures s[i].count >= s[j].count {
        if i == 0 {
          InsertMember(x, t, j - 1);
          if r[j - 1] != x {
            var m :| 0 <= m < |t| && t[m] == r[j - 1];
            assert recs[m + 1] == r[j - 1];
          }
        } else {
          assert s[i] == r[i - 1] && s[j] == r[j - 1];
        }
      }
    } else {
      var s := [x] + recs;
      assert Insert(x, recs) == s;
      forall i, j | 0 <= i < j < |s| ensures s[i].count >= s[j].count {
        assert s[j] == recs[j - 1];
        if i > 0 {
          assert s[i] == recs[i - 1];
        }
      }
    }
  }

  lemma {:induction false} InsertWithCount(x: Record, recs: seq<Record>, c: nat)
    ensures WithCount(Insert(x, recs), c) == (if x.count == c then [x] else []) + WithCount(recs, c)
  {
    if recs != [] && recs[0].count > x.count {
      InsertWithCount(x, recs[1..], c);
      assert ([recs[0]] + Insert(x, recs[1..]))[1..] == Insert(x, recs[1..]);
    } else {
      assert ([x] + recs)[1..] == recs;
    }
  }

  /** The sort leaves the list non-increasing in count. */
  lemma {:induction false} SortByCountSorted(recs: seq<Record>)
    ensures SortedByCount(SortByCount(recs))
  {
    if recs != [] {
      SortByCountSorted(recs[1..]);
      InsertSorted(recs[0], SortByCount(recs[1..]));
    }
  }

  /** The sort is stable: for every count, the records with it keep their relative order. */
  lemma {:induction false} SortByCountStable(recs: seq<Record>, c: nat)
    ensures WithCount(SortByCount(recs), c) == WithCount(recs, c)
  {
    if recs != [] {
      SortByCountStable(recs[1..], c);
      InsertWithCount(recs[0], SortByCount(recs[1..]), c);
    }
  }
}
