/** Memory seen as fields of chunks: what one store to a link field changes. */
module Fields {
  import opened Layout
  import opened Rings
  import opened Tiling

  /** Chunks lie apart inside memory and their headers hold their sizes. */
  ghost predicate Carved(m: seq<int>, H: Heap) {
    && Spaced(H)
    && (forall c {:trigger c in H} :: c in H ==>
          2 <= c && 3 <= H[c].size && c + H[c].size + 1 < |m| && SizeWords(Field(m, c, CURRENT_SIZE)) == H[c].size)
  }

  /** Some free chunk may keep a link in the word at i. */
  ghost predicate LinkWord(H: Heap, i: int) {
    exists c :: c in H && !H[c].used && IsLink(H[c].size, i - c)
  }

  /** Memory changed only inside the link words of free chunks. */
  ghost predicate Quiet(m: seq<int>, m': seq<int>, H: Heap) {
    && |m'| == |m|
    && (forall i {:trigger At(m', i)} :: !LinkWord(H, i) ==> At(m', i) == At(m, i))
  }

  /** Of all link fields only next and prev of chunks in r changed. */
  ghost predicate OnlyCircle(m: seq<int>, m': seq<int>, H: Heap, r: seq<int>) {
    forall x, k {:trigger Field(m', x, k)} ::
      x in H && IsLink(H[x].size, k) && !(k <= PREV && x in r) ==> Field(m', x, k) == Field(m, x, k)
  }

  /** Of all link fields only those of chunk c changed. */
  ghost predicate OnlyChunk(m: seq<int>, m': seq<int>, H: Heap, c: int) {
    forall x, k {:trigger Field(m', x, k)} ::
      x in H && IsLink(H[x].size, k) && x != c ==> Field(m', x, k) == Field(m, x, k)
  }

  ghost predicate Stored(m: seq<int>, m': seq<int>, H: Heap, a: int, j: int, v: int) {
    && Carved(m', H)
    && Quiet(m, m', H)
    && Field(m', a, j) == v
    && (forall x, k {:trigger Field(m', x, k)} ::
          x in H && IsLink(H[x].size, k) && (x != a || k != j) ==> Field(m', x, k) == Field(m, x, k))
  }

  lemma FieldsApart(m: seq<int>, H: Heap, a: int, j: int, x: int, k: int)
    requires Carved(m, H) && a in H && x in H && IsLink(H[a].size, j)
    requires IsLink(H[x].size, k) || k == CURRENT_SIZE
    requires (a, j) != (x, k)
    ensures a + j != x + k
  {
  }

  lemma StoreField(m: seq<int>, H: Heap, a: int, j: int, v: int)
    requires Carved(m, H) && a in H && !H[a].used && IsLink(H[a].size, j)
    ensures 0 <= a + j < |m| && Stored(m, m[a + j := v], H, a, j, v)
  {
    var m' := m[a + j := v];
    assert LinkWord(H, a + j);
    forall c | c in H
      ensures Field(m', c, CURRENT_SIZE) == Field(m, c, CURRENT_SIZE)
    {
      FieldsApart(m, H, a, j, c, CURRENT_SIZE);
    }
    forall x, k | x in H && IsLink(H[x].size, k) && (x != a || k != j)
      ensures Field(m', x, k) == Field(m, x, k)
    {
      FieldsApart(m, H, a, j, x, k);
    }
  }
}
