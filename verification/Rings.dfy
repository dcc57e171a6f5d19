/** Circular doubly linked lists of free chunks, threaded through memory by the next
    and prev words of the chunks themselves. */
module Rings {
  import opened Layout

  /** The word at address i of a memory image, 0 outside of it. */
  function At(m: seq<int>, i: int): int {
    if 0 <= i < |m| then m[i] else 0
  }

  /** Field j of the chunk at a. */
  function Field(m: seq<int>, a: int, j: int): int {
    At(m, a + j)
  }

  ghost predicate NoDup(r: seq<int>) {
    forall i, j :: 0 <= i < j < |r| ==> r[i] != r[j]
  }

  function After(r: seq<int>, i: int): int
    requires 0 <= i < |r|
  {
    if i + 1 < |r| then r[i + 1] else r[0]
  }

  function Before(r: seq<int>, i: int): int
    requires 0 <= i < |r|
  {
    if i > 0 then r[i - 1] else r[|r| - 1]
  }

  /** The chunks of r, in this order, form one circle in memory m. */
  ghost predicate Ring(m: seq<int>, r: seq<int>) {
    && |r| > 0
    && (forall i {:trigger After(r, i)} :: 0 <= i < |r| ==> Field(m, r[i], NEXT) == After(r, i))
    && (forall i {:trigger Before(r, i)} :: 0 <= i < |r| ==> Field(m, r[i], PREV) == Before(r, i))
  }

  ghost function Without(r: seq<int>, k: int): seq<int>
    requires 0 <= k < |r|
  {
    r[..k] + r[k + 1..]
  }

  lemma RingSame(m: seq<int>, m': seq<int>, r: seq<int>)
    requires Ring(m, r)
    requires forall x :: x in r ==> Field(m', x, NEXT) == Field(m, x, NEXT) && Field(m', x, PREV) == Field(m, x, PREV)
    ensures Ring(m', r)
  {
    forall i | 0 <= i < |r|
      ensures Field(m', r[i], NEXT) == After(r, i) && Field(m', r[i], PREV) == Before(r, i)
    {
      assert r[i] in r;
      assert Field(m, r[i], NEXT) == After(r, i) && Field(m, r[i], PREV) == Before(r, i);
    }
  }

  lemma RingAt(m: seq<int>, r: seq<int>, k: int)
    requires Ring(m, r) && NoDup(r) && 0 <= k < |r|
    ensures Field(m, r[k], NEXT) == After(r, k) && Field(m, r[k], PREV) == Before(r, k)
    ensures r[k] == Field(m, r[k], NEXT) && r[k] == Field(m, r[k], PREV) <==> |r| == 1
  {
    assert Field(m, r[k], NEXT) == After(r, k) && Field(m, r[k], PREV) == Before(r, k);
  }

  /** A circle cut open between its last and its first chunk. */
  ghost predicate Chain(m: seq<int>, r: seq<int>) {
    && (forall i {:trigger After(r, i)} :: 0 <= i < |r| - 1 ==> Field(m, r[i], NEXT) == After(r, i))
    && (forall i {:trigger Before(r, i)} :: 0 < i < |r| ==> Field(m, r[i], PREV) == Before(r, i))
  }

  lemma RingOfChain(m: seq<int>, r: seq<int>)
    requires |r| > 0 && Chain(m, r)
    requires Field(m, r[0], PREV) == r[|r| - 1] && Field(m, r[|r| - 1], NEXT) == r[0]
    ensures Ring(m, r)
  {
  }

  lemma ChainOfRing(m: seq<int>, m': seq<int>, r: seq<int>)
    requires Ring(m, r) && NoDup(r)
    requires forall x :: x in r && x != r[0] ==> Field(m', x, PREV) == Field(m, x, PREV)
    requires forall x :: x in r && x != r[|r| - 1] ==> Field(m', x, NEXT) == Field(m, x, NEXT)
    ensures Chain(m', r)
  {
    forall i | 0 <= i < |r|
      ensures i < |r| - 1 ==> Field(m', r[i], NEXT) == After(r, i)
      ensures 0 < i ==> Field(m', r[i], PREV) == Before(r, i)
    {
      assert r[i] in r;
      assert Field(m, r[i], NEXT) == After(r, i) && Field(m, r[i], PREV) == Before(r, i);
    }
  }

  lemma ChainFront(m: seq<int>, r: seq<int>, c: int)
    requires |r| > 0 && Chain(m, r) && Field(m, c, NEXT) == r[0] && Field(m, r[0], PREV) == c
    ensures Chain(m, [c] + r)
  {
    var f := [c] + r;
    forall i | 0 <= i < |f|
      ensures i < |f| - 1 ==> Field(m, f[i], NEXT) == After(f, i)
      ensures 0 < i ==> Field(m, f[i], PREV) == Before(f, i)
    {
      if i > 0 {
        assert f[i] == r[i - 1];
        assert i == |f| - 1 || After(f, i) == After(r, i - 1);
        assert i == 1 || Before(f, i) == Before(r, i - 1);
      }
    }
  }

  lemma ChainBack(m: seq<int>, r: seq<int>, c: int)
    requires |r| > 0 && Chain(m, r) && Field(m, c, PREV) == r[|r| - 1] && Field(m, r[|r| - 1], NEXT) == c
    ensures Chain(m, r + [c])
  {
    var b := r + [c];
    forall i | 0 <= i < |b|
      ensures i < |b| - 1 ==> Field(m, b[i], NEXT) == After(b, i)
      ensures 0 < i ==> Field(m, b[i], PREV) == Before(b, i)
    {
      if i < |r| {
        assert b[i] == r[i];
        assert i == |r| - 1 || After(b, i) == After(r, i);
        assert i == 0 || Before(b, i) == Before(r, i);
      }
    }
  }

  /** The four stores that put c between the last and the first chunk of a circle;
      the circle may then be read as starting or as ending with c. */
  lemma RingGrows(m: seq<int>, m': seq<int>, r: seq<int>, c: int)
    requires Ring(m, r) && NoDup(r) && c !in r
    requires Field(m', c, NEXT) == r[0] && Field(m', c, PREV) == r[|r| - 1]
    requires Field(m', r[0], PREV) == c && Field(m', r[|r| - 1], NEXT) == c
    requires forall x :: x in r && x != r[0] ==> Field(m', x, PREV) == Field(m, x, PREV)
    requires forall x :: x in r && x != r[|r| - 1] ==> Field(m', x, NEXT) == Field(m, x, NEXT)
    ensures Ring(m', [c] + r) && Ring(m', r + [c])
  {
    ChainOfRing(m, m', r);
    var f, b := [c] + r, r + [c];
    assert Ring(m', f) by {
      ChainFront(m', r, c);
      assert f[0] == c && f[|f| - 1] == r[|r| - 1];
      RingOfChain(m', f);
    }
    assert Ring(m', b) by {
      ChainBack(m', r, c);
      assert b[0] == r[0] && b[|b| - 1] == c;
      RingOfChain(m', b);
    }
  }

  lemma NoDupGrows(r: seq<int>, c: int)
    requires NoDup(r) && c !in r
    ensures NoDup([c] + r) && NoDup(r + [c])
  {
  }

  /** The index in r of element j of Without(r, k). */
  ghost function Skip(k: int, j: int): int {
    if j < k then j else j + 1
  }

  lemma WithoutNeighbours(r: seq<int>, k: int, j: int)
    requires 0 <= k < |r| && 0 <= j < |r| - 1
    ensures var s := Without(r, k);
            var i := Skip(k, j);
            s[j] == r[i]
            && After(s, j) == (if i + 1 == k || (k == 0 && i + 1 == |r|) then After(r, k) else After(r, i))
            && Before(s, j) == (if i == k + 1 || (i == 0 && k + 1 == |r|) then Before(r, k) else Before(r, i))
  {
  }

  /** The two stores that take chunk k out of a longer circle. */
  lemma RingShrinks(m: seq<int>, m': seq<int>, r: seq<int>, k: int)
    requires Ring(m, r) && NoDup(r) && 0 <= k < |r| && |r| > 1
    requires Field(m', After(r, k), PREV) == Before(r, k)
    requires Field(m', Before(r, k), NEXT) == After(r, k)
    requires forall x :: x in r && x != r[k] && x != After(r, k) ==> Field(m', x, PREV) == Field(m, x, PREV)
    requires forall x :: x in r && x != r[k] && x != Before(r, k) ==> Field(m', x, NEXT) == Field(m, x, NEXT)
    ensures Ring(m', Without(r, k))
  {
    var s := Without(r, k);
    forall j | 0 <= j < |s|
      ensures Field(m', s[j], NEXT) == After(s, j) && Field(m', s[j], PREV) == Before(s, j)
    {
      WithoutNeighbours(r, k, j);
      RingShrinksAt(m, m', r, k, Skip(k, j));
    }
  }

  lemma RingShrinksAt(m: seq<int>, m': seq<int>, r: seq<int>, k: int, i: int)
    requires Ring(m, r) && NoDup(r) && 0 <= k < |r| && 0 <= i < |r| && i != k
    requires Field(m', After(r, k), PREV) == Before(r, k)
    requires Field(m', Before(r, k), NEXT) == After(r, k)
    requires forall x :: x in r && x != r[k] && x != After(r, k) ==> Field(m', x, PREV) == Field(m, x, PREV)
    requires forall x :: x in r && x != r[k] && x != Before(r, k) ==> Field(m', x, NEXT) == Field(m, x, NEXT)
    ensures Field(m', r[i], NEXT) == if i + 1 == k || (k == 0 && i + 1 == |r|) then After(r, k) else After(r, i)
    ensures Field(m', r[i], PREV) == if i == k + 1 || (i == 0 && k + 1 == |r|) then Before(r, k) else Before(r, i)
  {
    assert r[i] in r;
    assert Field(m, r[i], NEXT) == After(r, i);
    assert Field(m, r[i], PREV) == Before(r, i);
  }

  lemma NoDupShrinks(r: seq<int>, k: int)
    requires NoDup(r) && 0 <= k < |r|
    ensures NoDup(Without(r, k))
    ensures forall x :: x in Without(r, k) <==> x in r && x != r[k]
  {
    var s := Without(r, k);
    forall x | x in r && x != r[k]
      ensures x in s
    {
      var i :| 0 <= i < |r| && r[i] == x;
      assert s[if i < k then i else i - 1] == x;
    }
  }
}
