/** What the search for the number of buckets finds: the least number that passes the test. */
module HashSearch {
  import opened HashLayout
  import opened HashBuild

  // ---- names and buckets ----

  /** The names in the first k buckets. */
  ghost function InBuckets<V>(names: seq<Key<V>>, size: nat, k: nat): nat
    requires size > 0
  {
    if k == 0 then 0 else InBuckets(names, size, k - 1) + |Select(names, size, k - 1)|
  }

  ghost predicate AllPresent<V>(names: seq<Key<V>>) {
    forall n :: 0 <= n < |names| ==> names[n].present
  }

  lemma {:induction false} LastName<V>(names: seq<Key<V>>, size: nat, k: nat)
    requires size > 0 && names != [] && names[|names| - 1].present
    ensures InBuckets(names, size, k)
         == InBuckets(names[..|names| - 1], size, k) + if names[|names| - 1].hash % size < k then 1 else 0
    decreases k
  {
    if k > 0 { LastName(names, size, k - 1); }
  }

  lemma {:induction false} NoName<V>(names: seq<Key<V>>, size: nat, k: nat)
    requires size > 0 && names == []
    ensures InBuckets(names, size, k) == 0
    decreases k
  {
    if k > 0 { NoName(names, size, k - 1); }
  }

  /** Every name is in one bucket. */
  lemma {:induction false} AllInBuckets<V>(names: seq<Key<V>>, size: nat)
    requires size > 0 && AllPresent(names)
    ensures InBuckets(names, size, size) == |names|
    decreases |names|
  {
    if names == [] {
      NoName(names, size, size);
    } else {
      AllInBuckets(names[..|names| - 1], size);
      LastName(names, size, size);
    }
  }

  lemma {:induction false} TwoWords<V>(items: seq<Key<V>>)
    ensures Words(items) >= 2 * |items|
    decreases |items|
  {
    if items != [] { TwoWords(items[..|items| - 1]); }
  }

  lemma {:induction false} FewPerBucket<V>(names: seq<Key<V>>, size: nat, room: nat, k: nat)
    requires size > 0 && k <= size && forall b :: 0 <= b < size ==> Total(names, size, b) <= room
    ensures InBuckets(names, size, k) <= k * (room / 16)
    decreases k
  {
    if k > 0 {
      FewPerBucket(names, size, room, k - 1);
      TwoWords(Select(names, size, k - 1));
      assert Total(names, size, k - 1) <= room;
      assert k * (room / 16) == (k - 1) * (room / 16) + room / 16;
    }
  }

  // ---- the search ----

  /** Names, and room in a bucket, for which the test is right. */
  ghost predicate Testable<V>(names: seq<Key<V>>, h: Setup) {
    && AllPresent(names) && h.bucketSize >= 24 && h.maxSize > 0 && 2 * (h.bucketSize - 8) < SHORTS && RoomFor(h, names)
  }

  /** An element takes at least 16 bytes, so that a number of buckets that passes is not below the first one that is tried. */
  lemma PassingIsNotSmall<V>(names: seq<Key<V>>, h: Setup, size: nat)
    requires Testable(names, h) && size > 0 && Accepts(names, size, h.bucketSize - 8)
    ensures |names| / ((h.bucketSize - 8) / 16) <= size
  {
    var room := h.bucketSize - 8;
    forall b | 0 <= b < size ensures Total(names, size, b) <= room { AcceptedFits(h, names, size, b); }
    AllInBuckets(names, size);
    FewPerBucket(names, size, room, size);
    Quotient(|names|, room / 16, size);
  }

  lemma Quotient(n: nat, q: nat, size: nat)
    requires q > 0 && n <= size * q
    ensures n / q <= size
  {
    var k := n / q;
    assert k * q <= n;
    assert (k - size) * q == k * q - size * q;
    NotPositive(k - size, q);
  }

  lemma NotPositive(d: int, q: nat)
    requires q > 0 && d * q <= 0
    ensures d <= 0
  {
  }

  /** With more than 10000 buckets allowed, and less than 100 of them for each name, only the last 1000 numbers are tried. */
  predicate Hasty(h: Setup, nelts: nat) {
    h.maxSize > 10000 && nelts > 0 && h.maxSize / nelts < 100
  }

  /** The search finds the least number of buckets, at most max_size, that passes the test; max_size if none does. */
  lemma ChosenIsLeast<V>(names: seq<Key<V>>, h: Setup)
    requires Testable(names, h)
    ensures var size, room, from := Chosen(names, h), h.bucketSize - 8, if Hasty(h, |names|) then h.maxSize - 1000 else 1;
      && (forall k :: from <= k < size ==> !Accepts(names, k, room))
      && (Accepts(names, size, room) || size == h.maxSize) && 0 < size <= h.maxSize
  {
    hide Accepts;
    var room := h.bucketSize - 8;
    var first := Start(h, |names|);
    LeastFrom(names, h, room, first);
    if !Hasty(h, |names|) {
      forall k | 0 < k < first
        ensures !Accepts(names, k, room)
      {
        if Accepts(names, k, room) { PassingIsNotSmall(names, h, k); }
      }
    }
  }

  lemma {:induction false} LeastFrom<V>(names: seq<Key<V>>, h: Setup, room: nat, size: nat)
    requires h.bucketSize >= 24 && h.maxSize > 0 && size > 0 && room == h.bucketSize - WORD_BYTES
    ensures var r := ChosenFrom(names, h, size);
      && r <= h.maxSize && (size <= r || r == h.maxSize) && (Accepts(names, r, room) || r == h.maxSize)
      && forall k :: size <= k < r ==> !Accepts(names, k, room)
    decreases h.maxSize - size
  {
    hide Accepts;
    if size <= h.maxSize && !Accepts(names, size, room) { LeastFrom(names, h, room, size + 1); }
  }
}
