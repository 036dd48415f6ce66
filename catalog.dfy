/**
 * `IPTV.load_channels` of iptv.py as a fold over the lines of the channel
 * list: `CATE:` lines open (or reopen) a category, the other lines name the
 * wanted channels of the current category.
 */
module Catalog {
  import opened Text
  import opened OrderedSets

  /** How `load_channels` reads a line (after stripping it). */
  datatype CatalogLine =
    | Skip              // empty, or starting with `#`
    | Cate(name: string) // `CATE:` and the stripped rest
    | Entry(name: string) // a channel name

  function ClassifyCatalog(raw: string): (k: CatalogLine)
    ensures k.Entry? ==> k.name != [] && IsStripped(k.name)
  {
    var line := Strip(raw);
    if line == [] || line[0] == '#' then Skip
    else if StartsWith(line, "CATE:") then Cate(Strip(line[5..]))
    else Entry(line)
  }

  function CatalogKinds(lines: seq<string>): (ks: seq<CatalogLine>)
    ensures |ks| == |lines| && forall i :: 0 <= i < |lines| ==> ks[i] == ClassifyCatalog(lines[i])
  {
    seq(|lines|, i requires 0 <= i < |lines| => ClassifyCatalog(lines[i]))
  }

  /**
   * What `load_channels` builds: the category names in `channel_cates` key
   * order, each category's set as its iteration order, the keys of
   * `channels` in insertion order, and the local `current`.
   */
  datatype State = State(cateNames: seq<string>, sets: map<string, seq<string>>, chans: seq<string>, current: string)

  /** The current category, when it is not empty, has its set. */
  ghost predicate Wf(c: State) {
    c.current != [] ==> c.current in c.sets
  }

  /** One turn of the loop. */
  function LoadStep(c: State, k: CatalogLine): (r: State)
    requires Wf(c)
    ensures Wf(r)
    ensures c.sets.Keys <= r.sets.Keys
  {
    match k
    case Skip => c
    case Cate(n) =>
      c.(current := n, cateNames := AddLast(c.cateNames, n), sets := if n in c.sets then c.sets else c.sets[n := []])
    case Entry(n) =>
      if c.current == [] then c
      else c.(sets := c.sets[c.current := AddLast(c.sets[c.current], n)], chans := AddLast(c.chans, n))
  }

  /** The loop over the lines read as `ks`. */
  function LoadAll(ks: seq<CatalogLine>, c: State): (r: State)
    requires Wf(c)
    ensures Wf(r)
  {
    if ks == [] then c else LoadStep(LoadAll(ks[..|ks| - 1], c), ks[|ks| - 1])
  }

  /** The lines up to `i` are the lines before it, then line `i`. */
  lemma LoadAllSnoc(ks: seq<CatalogLine>, i: nat, c: State)
    requires Wf(c) && i < |ks|
    ensures LoadAll(ks[..i + 1], c) == LoadStep(LoadAll(ks[..i], c), ks[i])
  {
    assert ks[..i + 1][..i] == ks[..i];
  }

  /** The state before the first line: `current = ''`, nothing loaded. */
  function Empty(): State {
    State([], map[], [], [])
  }

  // ----- What loading promises -----

  /** The categories' keys are exactly the listed category names. */
  ghost predicate KeysListed(c: State) {
    (forall n :: n in c.sets <==> n in c.cateNames) && NoDup(c.cateNames) && NoDup(c.chans)
    && forall n :: n in c.sets ==> NoDup(c.sets[n])
  }

  /** Every name placed in a category is a key of `channels`. */
  ghost predicate Closed(c: State) {
    forall n, i :: n in c.sets && 0 <= i < |c.sets[n]| ==> c.sets[n][i] in c.chans
  }

  /** Loading keeps the catalog closed and its key lists duplicate-free. */
  lemma {:induction false} LoadAllClosed(ks: seq<CatalogLine>, c: State)
    requires Wf(c) && Closed(c) && KeysListed(c)
    ensures Closed(LoadAll(ks, c)) && KeysListed(LoadAll(ks, c))
  {
    if ks != [] {
      var mid := LoadAll(ks[..|ks| - 1], c);
      LoadAllClosed(ks[..|ks| - 1], c);
      LoadStepClosed(mid, ks[|ks| - 1]);
    }
  }

  lemma LoadStepClosed(c: State, k: CatalogLine)
    requires Wf(c) && Closed(c) && KeysListed(c)
    ensures Closed(LoadStep(c, k)) && KeysListed(LoadStep(c, k))
  {
    var r := LoadStep(c, k);
    match k
    case Skip =>
    case Cate(n) =>
      AddLastNoDup(c.cateNames, n);
      assert r.chans == c.chans;
      forall m | m in r.sets ensures NoDup(r.sets[m]) {
        if m != n || n in c.sets {
          assert r.sets[m] == c.sets[m];
        }
      }
    case Entry(n) =>
      if c.current != [] {
        AddLastNoDup(c.chans, n);
        AddLastNoDup(c.sets[c.current], n);
        forall m | m in r.sets ensures NoDup(r.sets[m]) {
          if m != c.current {
            assert r.sets[m] == c.sets[m];
          }
        }
        forall m, i | m in r.sets && 0 <= i < |r.sets[m]| ensures r.sets[m][i] in r.chans {
          if m == c.current {
            assert r.sets[m][i] in AddLast(c.sets[m], n);
          } else {
            assert r.sets[m] == c.sets[m];
          }
        }
      }
  }

  /** Blank lines, `#` lines, and entries while no category is open change nothing. */
  lemma IgnoredLines(c: State, k: CatalogLine)
    requires Wf(c)
    requires k.Skip? || (k.Entry? && c.current == [])
    ensures LoadStep(c, k) == c
  {
  }

  /** The category names of the `CATE:` lines, in order. */
  function CateLineNames(ks: seq<CatalogLine>): seq<string> {
    if ks == [] then []
    else CateLineNames(ks[..|ks| - 1]) + (if ks[|ks| - 1].Cate? then [ks[|ks| - 1].name] else [])
  }

  /** `current` after the lines `ks`, starting from `current = ''`. */
  function CurrentAfter(ks: seq<CatalogLine>): string {
    if ks == [] then []
    else if ks[|ks| - 1].Cate? then ks[|ks| - 1].name
    else CurrentAfter(ks[..|ks| - 1])
  }

  /** The entry lines read while `x` was the current category, in order. */
  function EntriesUnder(ks: seq<CatalogLine>, x: string): seq<string> {
    if ks == [] then []
    else
      var p := ks[..|ks| - 1];
      EntriesUnder(p, x) + (if ks[|ks| - 1].Entry? && CurrentAfter(p) == x then [ks[|ks| - 1].name] else [])
  }

  lemma {:induction false} LoadAllCurrent(ks: seq<CatalogLine>)
    ensures LoadAll(ks, Empty()).current == CurrentAfter(ks)
  {
    if ks != [] {
      LoadAllCurrent(ks[..|ks| - 1]);
    }
  }

  /** Categories keep the order in which their first `CATE:` line appears. */
  lemma {:induction false} CategoryOrder(ks: seq<CatalogLine>)
    ensures LoadAll(ks, Empty()).cateNames == Dedup(CateLineNames(ks))
  {
    if ks != [] {
      var p := ks[..|ks| - 1];
      CategoryOrder(p);
      var cn := CateLineNames(p);
      if ks[|ks| - 1].Cate? {
        var n := ks[|ks| - 1].name;
        assert CateLineNames(ks) == cn + [n];
        assert (cn + [n])[..|cn|] == cn;
      } else {
        assert CateLineNames(ks) == cn;
      }
    }
  }

  /** The categories are exactly the names of the `CATE:` lines. */
  lemma {:induction false} CategoryKeys(ks: seq<CatalogLine>, m: string)
    ensures m in LoadAll(ks, Empty()).sets <==> m in CateLineNames(ks)
  {
    if ks != [] {
      var p := ks[..|ks| - 1];
      CategoryKeys(p, m);
      if ks[|ks| - 1].Cate? {
        assert CateLineNames(ks) == CateLineNames(p) + [ks[|ks| - 1].name];
      }
    }
  }

  /**
   * A category's set holds the entries read under every one of its `CATE:`
   * lines, in first-appearance order without repeats: a repeated `CATE:`
   * reuses the set.
   */
  lemma {:induction false} SetsAreEntries(ks: seq<CatalogLine>, x: string)
    requires x in LoadAll(ks, Empty()).sets && x != []
    ensures LoadAll(ks, Empty()).sets[x] == Dedup(EntriesUnder(ks, x))
  {
    var p := ks[..|ks| - 1];
    var k := ks[|ks| - 1];
    var mid := LoadAll(p, Empty());
    LoadAllCurrent(p);
    var e := EntriesUnder(p, x);
    assert LoadAll(ks, Empty()) == LoadStep(mid, k);
    assert EntriesUnder(ks, x) == e + (if k.Entry? && mid.current == x then [k.name] else []);
    if x in mid.sets {
      SetsAreEntries(p, x);
      StepSet(mid, k, x, e);
    } else {
      EntriesBeforeCate(p, x);
    }
  }

  /** One line adds to the set of `x` exactly the entry read under `x`. */
  lemma StepSet(c: State, k: CatalogLine, x: string, e: seq<string>)
    requires Wf(c) && x in c.sets && x != [] && c.sets[x] == Dedup(e)
    ensures LoadStep(c, k).sets[x] == Dedup(e + (if k.Entry? && c.current == x then [k.name] else []))
  {
    if k.Entry? && c.current == x {
      assert (e + [k.name])[..|e|] == e;
      assert Dedup(e + [k.name]) == AddLast(Dedup(e), k.name);
    } else {
      assert e + [] == e;
    }
  }

  /** While `x` has no set yet, nothing was read under it. */
  lemma {:induction false} EntriesBeforeCate(ks: seq<CatalogLine>, x: string)
    requires x !in LoadAll(ks, Empty()).sets && x != []
    ensures EntriesUnder(ks, x) == [] && CurrentAfter(ks) != x
  {
    if ks != [] {
      var p := ks[..|ks| - 1];
      EntriesBeforeCate(p, x);
      LoadAllCurrent(p);
    }
  }
}
