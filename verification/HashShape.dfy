/** The layout of a table depends only on the names, not on the values. */
module HashShape {
  import opened HashLayout
  import opened HashBuild

  ghost predicate SameShape<V, W>(names: seq<Key<V>>, others: seq<Key<W>>) {
    |names| == |others| && forall n :: 0 <= n < |names| ==> SameKey(names[n], others[n])
  }

  ghost predicate SameKey<V, W>(x: Key<V>, y: Key<W>) {
    x.key == y.key && x.hash == y.hash && x.present == y.present
  }

  lemma ShapePrefix<V, W>(names: seq<Key<V>>, others: seq<Key<W>>, n: nat)
    requires SameShape(names, others) && n <= |names|
    ensures SameShape(names[..n], others[..n])
  {
    forall k | 0 <= k < n ensures SameKey(names[..n][k], others[..n][k]) { assert SameKey(names[k], others[k]); }
  }

  lemma {:induction false} ShapeSelect<V, W>(names: seq<Key<V>>, others: seq<Key<W>>, size: nat, b: nat)
    requires size > 0 && SameShape(names, others)
    ensures SameShape(Select(names, size, b), Select(others, size, b))
    decreases |names|
  {
    if names != [] {
      var k := |names| - 1;
      assert SameKey(names[k], others[k]);
      ShapePrefix(names, others, k);
      ShapeSelect(names[..k], others[..k], size, b);
    }
  }

  lemma {:induction false} ShapeWords<V, W>(names: seq<Key<V>>, others: seq<Key<W>>)
    requires SameShape(names, others)
    ensures Words(names) == Words(others)
    decreases |names|
  {
    if names != [] {
      var k := |names| - 1;
      assert SameKey(names[k], others[k]);
      ShapePrefix(names, others, k);
      ShapeWords(names[..k], others[..k]);
    }
  }

  lemma {:induction false} ShapeWrapped<V, W>(names: seq<Key<V>>, others: seq<Key<W>>, size: nat, b: nat)
    requires size > 0 && SameShape(names, others)
    ensures Wrapped(names, size, b) == Wrapped(others, size, b)
    decreases |names|
  {
    if names != [] {
      var k := |names| - 1;
      assert SameKey(names[k], others[k]);
      ShapePrefix(names, others, k);
      ShapeWrapped(names[..k], others[..k], size, b);
    }
  }

  lemma ShapeAccepts<V, W>(names: seq<Key<V>>, others: seq<Key<W>>, size: nat, room: nat)
    requires size > 0 && SameShape(names, others)
    ensures Accepts(names, size, room) <==> Accepts(others, size, room)
  {
    forall n | 0 <= n < |names|
      ensures names[n].present == others[n].present && (AcceptsName(names, size, room, n) <==> AcceptsName(others, size, room, n))
    {
      assert SameKey(names[n], others[n]);
      ShapePrefix(names, others, n + 1);
      ShapeWrapped(names[..n + 1], others[..n + 1], size, names[n].hash % size);
    }
  }

  lemma {:induction false} ShapeChosenFrom<V, W>(names: seq<Key<V>>, others: seq<Key<W>>, h: Setup, size: nat)
    requires h.bucketSize >= 24 && size > 0 && h.maxSize > 0 && SameShape(names, others)
    ensures ChosenFrom(names, h, size) == ChosenFrom(others, h, size)
    decreases h.maxSize - size
  {
    hide SameShape, Accepts;
    if size <= h.maxSize {
      ShapeAccepts(names, others, size, h.bucketSize - WORD_BYTES);
      ShapeChosenFrom(names, others, h, size + 1);
    }
  }

  /** Names of the same shape get the same number of buckets and the same bucket totals. */
  lemma ShapeFits<V, W>(names: seq<Key<V>>, others: seq<Key<W>>, h: Setup)
    requires SameShape(names, others)
    ensures RoomFor(h, names) <==> RoomFor(h, others)
    ensures h.bucketSize >= 24 && h.maxSize > 0 ==>
      Chosen(names, h) == Chosen(others, h)
      && (TotalsFit(names, Chosen(names, h), h.line) <==> TotalsFit(others, Chosen(others, h), h.line))
  {
    forall n | 0 <= n < |names| ensures names[n].key == others[n].key { assert SameKey(names[n], others[n]); }
    if h.bucketSize >= 24 && h.maxSize > 0 {
      ShapeChosenFrom(names, others, h, Start(h, |names|));
      var size := Chosen(names, h);
      forall b | 0 <= b < size
        ensures Total(names, size, b) == Total(others, size, b)
      {
        ShapeSelect(names, others, size, b);
        ShapeWords(Select(names, size, b), Select(others, size, b));
      }
    }
  }
}
