/**
 * `OrderedSet` of iptv.py: a set that remembers insertion order, kept as the
 * key sequence of a dictionary whose values are all None.
 */
module OrderedSets {
  import opened Wrappers

  /** No element occurs twice. */
  ghost predicate NoDup<T>(s: seq<T>) {
    forall i, j :: 0 <= i < j < |s| ==> s[i] != s[j]
  }

  /** The key order after `d[x] = None`: a present key keeps its place. */
  function AddLast<T(==)>(s: seq<T>, x: T): seq<T> {
    if x in s then s else s + [x]
  }

  /** The key order after `d.pop(x, None)`. */
  function Without<T(==)>(s: seq<T>, x: T): (r: seq<T>)
    ensures |r| <= |s|
  {
    if s == [] then []
    else if s[0] == x then Without(s[1..], x)
    else [s[0]] + Without(s[1..], x)
  }

  /** The key order of `dict.fromkeys(s)`: each element at its first occurrence. */
  function Dedup<T(==)>(s: seq<T>): (r: seq<T>)
    ensures NoDup(r)
    ensures forall i :: 0 <= i < |s| ==> s[i] in r
    ensures forall i :: 0 <= i < |r| ==> r[i] in s
  {
    if s == [] then [] else AddLast(Dedup(s[..|s| - 1]), s[|s| - 1])
  }

  /** Position of the first occurrence of `x` in `s`. */
  function FirstIndex<T(==)>(s: seq<T>, x: T): (i: nat)
    requires x in s
    ensures i < |s| && s[i] == x && x !in s[..i]
  {
    if s[0] == x then 0 else 1 + FirstIndex(s[1..], x)
  }

  lemma AddLastNoDup<T>(s: seq<T>, x: T)
    requires NoDup(s)
    ensures NoDup(AddLast(s, x))
    ensures forall y :: y in AddLast(s, x) <==> y in s || y == x
  {
  }

  lemma {:induction false} WithoutMembers<T>(s: seq<T>, x: T)
    ensures forall y :: y in Without(s, x) <==> y in s && y != x
  {
    if s != [] {
      WithoutMembers(s[1..], x);
    }
  }

  lemma {:induction false} WithoutAbsent<T>(s: seq<T>, x: T)
    requires x !in s
    ensures Without(s, x) == s
  {
    if s != [] {
      WithoutAbsent(s[1..], x);
    }
  }

  /**
   * Discarding removes exactly the one occurrence of `x` and leaves the other
   * keys in their order.
   */
  lemma {:induction false} WithoutRemovesExactly<T>(s: seq<T>, x: T)
    requires NoDup(s) && x in s
    ensures Without(s, x) == s[..FirstIndex(s, x)] + s[FirstIndex(s, x) + 1..]
  {
    if s[0] == x {
      WithoutAbsent(s[1..], x);
    } else {
      WithoutRemovesExactly(s[1..], x);
      assert s[1..][..FirstIndex(s[1..], x)] == s[1..FirstIndex(s, x)];
    }
  }

  lemma {:induction false} WithoutNoDup<T>(s: seq<T>, x: T)
    requires NoDup(s)
    ensures NoDup(Without(s, x))
  {
    if s != [] {
      assert NoDup(s[1..]);
      WithoutNoDup(s[1..], x);
      WithoutMembers(s[1..], x);
      assert s[0] !in s[1..];
    }
  }

  lemma {:induction false} FirstIndexAt<T>(s: seq<T>, x: T, i: nat)
    requires i < |s| && s[i] == x && x !in s[..i]
    ensures FirstIndex(s, x) == i
  {
    if i > 0 {
      assert s[0] in s[..i];
      assert s[1..][..i - 1] == s[1..i];
      FirstIndexAt(s[1..], x, i - 1);
    }
  }

  lemma FirstIndexSnoc<T>(p: seq<T>, z: T, x: T)
    requires x in p + [z]
    ensures FirstIndex(p + [z], x) == if x in p then FirstIndex(p, x) else |p|
  {
    var s := p + [z];
    if x in p {
      var i := FirstIndex(p, x);
      assert s[..i] == p[..i];
      FirstIndexAt(s, x, i);
    } else {
      assert s[..|p|] == p;
      FirstIndexAt(s, x, |p|);
    }
  }

  /**
   * Construction keeps first occurrences: two elements come out of `Dedup` in
   * the order of their first occurrences in the input.
   */
  lemma {:induction false} DedupKeepsFirstOccurrences<T>(s: seq<T>, x: T, y: T)
    requires x in s && y in s
    ensures FirstIndex(Dedup(s), x) < FirstIndex(Dedup(s), y)
            <==> FirstIndex(s, x) < FirstIndex(s, y)
  {
    var p, z := s[..|s| - 1], s[|s| - 1];
    assert s == p + [z];
    var d := Dedup(p);
    assert forall w :: w in d <==> w in p;
    FirstIndexSnoc(p, z, x);
    FirstIndexSnoc(p, z, y);
    if z in p {
      assert Dedup(s) == d;
      if x in p && y in p {
        DedupKeepsFirstOccurrences(p, x, y);
      }
    } else {
      assert Dedup(s) == d + [z];
      FirstIndexSnoc(d, z, x);
      FirstIndexSnoc(d, z, y);
      if x in p && y in p {
        DedupKeepsFirstOccurrences(p, x, y);
      }
    }
  }

  class OrderedSet<T(==)> {
    /** The keys of the backing dictionary `_d`, in insertion order. */
    var elems: seq<T>

    ghost predicate Valid()
      reads this
    {
      NoDup(elems)
    }

    /** `OrderedSet(iterable)`: `dict.fromkeys(iterable)`, or `{}` for an empty one. */
    constructor (init: seq<T>)
      ensures Valid() && elems == Dedup(init)
    {
      var d: seq<T> := [];
      var i := 0;
      while i < |init|
        invariant 0 <= i <= |init|
        invariant d == Dedup(init[..i])
      {
        assert init[..i + 1][..i] == init[..i];
        d := AddLast(d, init[i]);
        i := i + 1;
      }
      assert init[..|init|] == init;
      elems := d;
    }

    /** `add`: an absent element goes last, a present one stays where it is. */
    method Add(x: T)
      requires Valid()
      modifies this
      ensures Valid()
      ensures elems == if x in old(elems) then old(elems) else old(elems) + [x]
    {
      AddLastNoDup(elems, x);
      elems := AddLast(elems, x);
    }

    method Clear()
      modifies this
      ensures Valid() && elems == []
    {
      elems := [];
    }

    /** `discard`: removes `x` if present, keeping the order of the others. */
    method Discard(x: T)
      requires Valid()
      modifies this
      ensures Valid()
      ensures elems == Without(old(elems), x)
      ensures x in old(elems) ==> |elems| == |old(elems)| - 1
      ensures x !in old(elems) ==> elems == old(elems)
    {
      WithoutNoDup(elems, x);
      if x in elems {
        WithoutRemovesExactly(elems, x);
      } else {
        WithoutAbsent(elems, x);
      }
      elems := Without(elems, x);
    }

    /**
     * `s[index]`: the element at that iteration position; None where Python
     * raises (IndexError past the end, ValueError from `islice` below zero).
     */
    method At(index: int) returns (r: Option<T>)
      ensures 0 <= index < |elems| ==> r == Some(elems[index])
      ensures !(0 <= index < |elems|) ==> r == None
    {
      if 0 <= index < |elems| {
        r := Some(elems[index]);
      } else {
        r := None;
      }
    }

    /** `x in s` */
    predicate Has(x: T)
      reads this
    {
      x in elems
    }

    /** `len(s)` */
    function Len(): nat
      reads this
    {
      |elems|
    }
  }
}
