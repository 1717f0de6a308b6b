/** ngx_hash_init: choosing the number of buckets, laying them out and filling them. */
module HashBuild {
  import opened HashLayout
  import opened HashTable

  /** What ngx_hash_init reads from ngx_hash_init_t, and ngx_cacheline_size. */
  datatype Setup = Setup(maxSize: nat, bucketSize: nat, line: nat)

  datatype Result<V> = Ok(table: Table<V>) | Error

  // ---- the number of buckets ----

  /** Every name fits into a bucket of the configured size, with a terminator. */
  ghost predicate RoomFor<V>(h: Setup, names: seq<Key<V>>) {
    forall n :: 0 <= n < |names| ==> EltSize(|names[n].key|) + WORD_BYTES <= h.bucketSize
  }

  /** The first number of buckets that is tried. */
  function Start(h: Setup, nelts: nat): nat
    requires h.bucketSize >= 24
  {
    var start := nelts / ((h.bucketSize - WORD_BYTES) / (2 * WORD_BYTES));
    if h.maxSize > 10000 && nelts > 0 && h.maxSize / nelts < 100 then h.maxSize - 1000
    else if start > 0 then start else 1
  }

  /** The bytes that the names put into bucket b, as an unsigned short counts them. */
  ghost function Wrapped<V>(names: seq<Key<V>>, size: nat, b: nat): nat
    requires size > 0
  {
    if names == [] then 0
    else
      var last := names[|names| - 1];
      var before := Wrapped(names[..|names| - 1], size, b);
      if last.present && last.hash % size == b then (before + EltSize(|last.key|)) % SHORTS else before
  }

  /** No name makes the counter of its bucket exceed the room in a bucket. */
  ghost predicate Accepts<V>(names: seq<Key<V>>, size: nat, room: nat)
    requires size > 0
  {
    forall n :: 0 <= n < |names| && names[n].present ==> AcceptsName(names, size, room, n)
  }

  ghost predicate AcceptsName<V>(names: seq<Key<V>>, size: nat, room: nat, n: nat)
    requires size > 0 && n < |names|
  {
    Wrapped(names[..n + 1], size, names[n].hash % size) <= room % SHORTS
  }

  /** The first number of buckets from `size` on that is accepted, or max_size. */
  ghost function ChosenFrom<V>(names: seq<Key<V>>, h: Setup, size: nat): (r: nat)
    requires h.bucketSize >= 24 && size > 0 && h.maxSize > 0
    ensures r > 0
    decreases h.maxSize - size
  {
    if size > h.maxSize then h.maxSize
    else if Accepts(names, size, h.bucketSize - WORD_BYTES) then size
    else ChosenFrom(names, h, size + 1)
  }

  ghost function Chosen<V>(names: seq<Key<V>>, h: Setup): (r: nat)
    requires h.bucketSize >= 24 && h.maxSize > 0
    ensures r > 0
  {
    ChosenFrom(names, h, Start(h, |names|))
  }

  /** One round of the search loop. */
  method TestSize<V>(names: seq<Key<V>>, size: nat, room: nat) returns (ok: bool)
    requires size > 0
    ensures ok <==> Accepts(names, size, room)
  {
    var test := new nat[size](_ => 0);
    var n := 0;
    while n < |names|
      invariant n <= |names| && forall b :: 0 <= b < size ==> test[b] == Wrapped(names[..n], size, b)
      invariant forall k :: 0 <= k < n && names[k].present ==> AcceptsName(names, size, room, k)
    {
      assert names[..n + 1][..n] == names[..n];
      if names[n].present {
        var key := names[n].hash % size;
        test[key] := (test[key] + EltSize(|names[n].key|)) % SHORTS;
        if test[key] > room % SHORTS {
          assert !AcceptsName(names, size, room, n);
          return false;
        }
      }
      n := n + 1;
    }
    return true;
  }

  method ChooseSize<V>(h: Setup, names: seq<Key<V>>) returns (size: nat)
    requires h.bucketSize >= 24 && h.maxSize > 0
    ensures size == Chosen(names, h)
  {
    size := Start(h, |names|);
    while size <= h.maxSize
      invariant size > 0 && ChosenFrom(names, h, size) == Chosen(names, h)
    {
      var ok := TestSize(names, size, h.bucketSize - WORD_BYTES);
      if ok {
        return;
      }
      size := size + 1;
    }
    size := h.maxSize;
  }

  lemma AcceptsLess<V>(names: seq<Key<V>>, size: nat, room: nat)
    requires size > 0 && Accepts(names, size, room) && names != []
    ensures Accepts(names[..|names| - 1], size, room)
  {
    var init := names[..|names| - 1];
    forall n | 0 <= n < |init| && init[n].present
      ensures AcceptsName(init, size, room, n)
    {
      assert init[..n + 1] == names[..n + 1];
      assert AcceptsName(names, size, room, n);
    }
  }

  lemma TotalNext<V>(names: seq<Key<V>>, size: nat, b: nat)
    requires size > 0 && names != []
    ensures var last := names[|names| - 1];
      Total(names, size, b) == Total(names[..|names| - 1], size, b)
                               + if last.present && last.hash % size == b then EltSize(|last.key|) else 0
  {
    var last := names[|names| - 1];
    var before := Select(names[..|names| - 1], size, b);
    EltBytes(|last.key|);
    assert (before + [last])[..|before|] == before;
  }

  lemma {:induction false} WrappedBound<V>(names: seq<Key<V>>, size: nat, b: nat, room: nat)
    requires size > 0 && Accepts(names, size, room) && 2 * room < SHORTS
    requires forall n :: 0 <= n < |names| ==> EltSize(|names[n].key|) <= room
    ensures Total(names, size, b) == Wrapped(names, size, b) <= room
    decreases |names|
  {
    hide Accepts, Total, EltSize, Select;
    if names == [] {
      NoTotal(names, size, b);
    } else {
      var k := |names| - 1;
      AcceptsLess(names, size, room);
      WrappedBound(names[..k], size, b, room);
      TotalNext(names, size, b);
      if names[k].present && names[k].hash % size == b {
        LastAccepted(names, size, room);
      }
    }
  }

  lemma NoTotal<V>(names: seq<Key<V>>, size: nat, b: nat)
    requires size > 0 && names == []
    ensures Total(names, size, b) == 0
  {
  }

  lemma LastAccepted<V>(names: seq<Key<V>>, size: nat, room: nat)
    requires size > 0 && names != [] && names[|names| - 1].present && Accepts(names, size, room)
    ensures Wrapped(names, size, names[|names| - 1].hash % size) <= room % SHORTS
  {
    assert AcceptsName(names, size, room, |names| - 1);
    assert names[..|names|] == names;
  }

  /** A number of buckets that is accepted keeps every bucket within the configured size. */
  lemma AcceptedFits<V>(h: Setup, names: seq<Key<V>>, size: nat, b: nat)
    requires h.bucketSize >= 24 && size > 0 && RoomFor(h, names) && 2 * (h.bucketSize - WORD_BYTES) < SHORTS
    requires Accepts(names, size, h.bucketSize - WORD_BYTES)
    ensures WORD_BYTES + Total(names, size, b) <= h.bucketSize
  {
    forall n | 0 <= n < |names| ensures EltSize(|names[n].key|) <= h.bucketSize - WORD_BYTES {}
    WrappedBound(names, size, b, h.bucketSize - WORD_BYTES);
  }

  /** For these names the test is right: what passes keeps the room of every bucket. */
  ghost predicate Reliable(names: seq<Key<bool>>, size: nat, room: nat) {
    size > 0 && Accepts(names, size, room) && (forall n :: 0 <= n < |names| ==> EltSize(|names[n].key|) <= room) ==>
      forall b :: 0 <= b < size ==> Total(names, size, b) <= room
  }

  /** A name whose element takes e bytes. */
  function NameOf(e: nat): (x: Key<bool>)
    requires e >= 16 && e % 8 == 0
    ensures EltSize(|x.key|) == e && x.present && x.hash == 0
  {
    Key(seq(e - 10, _ => 0x61), 0, true, true)
  }

  /** One more name in the only bucket. */
  lemma OneBucket(names: seq<Key<bool>>, e: nat)
    requires e >= 16 && e % 8 == 0
    ensures Total(names + [NameOf(e)], 1, 0) == Total(names, 1, 0) + e
    ensures Wrapped(names + [NameOf(e)], 1, 0) == (Wrapped(names, 1, 0) + e) % SHORTS
  {
    hide Total, EltSize;
    var more := names + [NameOf(e)];
    assert more[..|more| - 1] == names && more[|more| - 1] == NameOf(e);
    TotalNext(more, 1, 0);
  }

  lemma WrapTwice(d: nat, e: nat)
    ensures (d % SHORTS + e) % SHORTS == (d + e) % SHORTS
  {
  }

  /** Two names in one bucket, as the test counts them and in fact. */
  lemma TwoNames(d: nat, e: nat, room: nat)
    requires d >= 16 && e >= 16 && d % 8 == 0 && e % 8 == 0
    requires d % SHORTS <= room % SHORTS && (d + e) % SHORTS <= room % SHORTS
    ensures var names := [NameOf(d), NameOf(e)]; Accepts(names, 1, room) && Total(names, 1, 0) == d + e
  {
    hide Total, NameOf, Wrapped;
    var one, names := [NameOf(d)], [NameOf(d), NameOf(e)];
    assert [] + one == one && one + [NameOf(e)] == names && names[..1] == one && names[..2] == names;
    NothingWrapped([]);
    OneBucket([], d);
    OneBucket(one, e);
    WrapTwice(d, e);
    InFirst(names, 1, room, 0, d % SHORTS);
    InFirst(names, 1, room, 1, (d + e) % SHORTS);
  }

  lemma NothingWrapped(names: seq<Key<bool>>)
    requires names == []
    ensures Wrapped(names, 1, 0) == 0 && Total(names, 1, 0) == 0
  {
  }

  lemma InFirst(names: seq<Key<bool>>, size: nat, room: nat, n: nat, bytes: nat)
    requires size == 1 && n < |names| && Wrapped(names[..n + 1], 1, 0) == bytes <= room % SHORTS
    ensures AcceptsName(names, size, room, n)
  {
    assert names[n].hash % 1 == 0;
  }

  lemma ReliableBelow(names: seq<Key<bool>>, size: nat, room: nat)
    requires 2 * room < SHORTS
    ensures Reliable(names, size, room)
  {
    hide Accepts, Total, EltSize;
    if size > 0 && Accepts(names, size, room) && forall n :: 0 <= n < |names| ==> EltSize(|names[n].key|) <= room {
      forall b | 0 <= b < size ensures Total(names, size, b) <= room { WrappedBound(names, size, b, room); }
    }
  }

  /** The sizes of two elements that each fit the room, although together they do not, but pass the test. */
  lemma TwoSizes(room: nat) returns (d: nat, e: nat)
    requires 2 * room >= SHORTS
    ensures 16 <= d <= room && 16 <= e <= room && d % 8 == 0 && e % 8 == 0 && d + e > room
    ensures d % SHORTS <= room % SHORTS && (d + e) % SHORTS <= room % SHORTS
  {
    d := room - room % 8;
    e := if room < SHORTS then d else SHORTS;
    LowBits(room);
  }

  lemma LowBits(room: nat)
    ensures (room - room % 8) % SHORTS == room % SHORTS - room % 8
    ensures (room - room % 8 + SHORTS) % SHORTS == room % SHORTS - room % 8
  {
    var q, r := room / SHORTS, room % SHORTS;
    assert room == q * SHORTS + r && room % 8 == r % 8;
    Remainder(q, r - r % 8);
    Remainder(q + 1, r - r % 8);
  }

  lemma Remainder(q: nat, r: nat)
    requires r < SHORTS
    ensures (q * SHORTS + r) % SHORTS == r
  {
  }

  lemma Unreliable(room: nat) returns (names: seq<Key<bool>>)
    requires 2 * room >= SHORTS
    ensures !Reliable(names, 1, room)
  {
    hide Accepts, Total;
    var d, e := TwoSizes(room);
    names := [NameOf(d), NameOf(e)];
    TwoNames(d, e, room);
  }

  /** The test is right for all names exactly if the room in a bucket is below half the range of its counters. */
  lemma ReliableExactly(room: nat)
    ensures (forall names, size :: Reliable(names, size, room)) <==> 2 * room < SHORTS
  {
    hide Reliable;
    if 2 * room < SHORTS {
      forall names: seq<Key<bool>>, size: nat ensures Reliable(names, size, room) { ReliableBelow(names, size, room); }
    } else {
      var names := Unreliable(room);
    }
  }

  // ---- the memory ----

  /** The counters hold what the names put into each bucket, and `head` bytes more. */
  ghost predicate Tallied<V>(test: seq<nat>, names: seq<Key<V>>, size: nat, head: nat) {
    size > 0 && |test| == size && forall b :: 0 <= b < size ==> test[b] == head + Total(names, size, b)
  }

  lemma TotalMonotone<V>(names: seq<Key<V>>, size: nat, b: nat, n: nat)
    requires size > 0 && n <= |names|
    ensures Total(names[..n], size, b) <= Total(names, size, b)
  {
    SelectPrefix(names, size, b, n);
    var all, some := Select(names, size, b), Select(names[..n], size, b);
    assert all[..|some|] == some;
    WordsPrefix(all, |some|);
  }

  lemma TallyNext<V>(test: seq<nat>, names: seq<Key<V>>, size: nat, head: nat, n: nat)
    requires n < |names| && Tallied(test, names[..n], size, head)
    ensures !names[n].present ==> Tallied(test, names[..n + 1], size, head)
    ensures names[n].present ==>
      var b := names[n].hash % size;
      && test[b] + EltSize(|names[n].key|) <= head + Total(names, size, b)
      && Tallied(test[b := test[b] + EltSize(|names[n].key|)], names[..n + 1], size, head)
  {
    var more := names[..n + 1];
    assert more[..n] == names[..n];
    forall b | 0 <= b < size
      ensures Total(more, size, b) == Total(names[..n], size, b)
                                      + if names[n].present && names[n].hash % size == b then EltSize(|names[n].key|) else 0
      ensures Total(more, size, b) <= Total(names, size, b)
    {
      TotalNext(more, size, b);
      TotalMonotone(names, size, b, n + 1);
    }
  }

  /** The bucket totals of all names, terminators included; below 65536 the unsigned shorts do not wrap. */
  method Tally<V>(names: seq<Key<V>>, size: nat, line: nat) returns (test: array<nat>)
    requires size > 0 && TotalsFit(names, size, line) && line > 0
    ensures fresh(test) && Tallied(test[..], names, size, WORD_BYTES)
  {
    hide Total, EltSize;
    test := new nat[size](_ => WORD_BYTES);
    NothingTallied(test[..], names, size, WORD_BYTES);
    var n := 0;
    while n < |names|
      invariant n <= |names| && Tallied(test[..], names[..n], size, WORD_BYTES)
    {
      TallyNext(test[..], names, size, WORD_BYTES, n);
      if names[n].present {
        var key := names[n].hash % size;
        test[key] := (test[key] + EltSize(|names[n].key|)) % SHORTS;
      }
      n := n + 1;
    }
    assert names[..n] == names;
  }

  lemma NothingTallied<V>(test: seq<nat>, names: seq<Key<V>>, size: nat, head: nat)
    requires size > 0 && |test| == size && forall b :: 0 <= b < size ==> test[b] == head
    ensures Tallied(test, names[..0], size, head)
  {
    forall b | 0 <= b < size ensures Total(names[..0], size, b) == 0 { NoTotal(names[..0], size, b); }
  }

  lemma EmptyIsZero<V>(names: seq<Key<V>>, size: nat, b: nat)
    requires size > 0
    ensures Total(names, size, b) == 0 <==> Select(names, size, b) == []
  {
  }

  /** The total of a bucket in use, rounded up to cache lines in an unsigned short, is what is set aside for it. */
  lemma CapOf<V>(test: nat, names: seq<Key<V>>, size: nat, line: nat, b: nat)
    requires size > 0 && b < size && Line(line) && TotalsFit(names, size, line) && test == WORD_BYTES + Total(names, size, b)
    ensures test == WORD_BYTES <==> Select(names, size, b) == []
    ensures Cap(names, size, line, b) == if test == WORD_BYTES then 0 else Align(test, line) % SHORTS / 8
  {
    EmptyIsZero(names, size, b);
    AlignFacts(test, line);
  }

  /** The buckets one after the other, and the words they take in all. */
  method LayOut<V>(test: array<nat>, ghost names: seq<Key<V>>, size: nat, line: nat) returns (buckets: seq<int>, len: nat)
    requires Tallied(test[..], names, size, WORD_BYTES) && Line(line) && TotalsFit(names, size, line)
    ensures |buckets| == size && len == Offset(names, size, line, size)
    ensures forall b :: 0 <= b < size ==> buckets[b] == BucketAt(names, size, line, b)
  {
    hide Total, Cap, Select, Align, TotalsFit;
    buckets, len := [], 0;
    var i := 0;
    while i < size
      invariant i <= size && |buckets| == i && len == Offset(names, size, line, i)
      invariant forall b :: 0 <= b < i ==> buckets[b] == BucketAt(names, size, line, b)
    {
      assert test[..][i] == test[i];
      CapOf(test[i], names, size, line, i);
      if test[i] == WORD_BYTES {
        buckets := buckets + [NOWHERE];
      } else {
        buckets := buckets + [len];
        len := len + Align(test[i], line) % SHORTS / 8;
      }
      i := i + 1;
    }
  }

  ghost function BucketAt<V>(names: seq<Key<V>>, size: nat, line: nat, b: nat): int
    requires size > 0 && line > 0
  {
    if Select(names, size, b) == [] then NOWHERE else Offset(names, size, line, b)
  }
}
