/** The last loops of ngx_hash_init: the elements and the terminators are written into their buckets. */
module HashFill {
  import opened HashLayout
  import opened HashTable
  import opened HashBuild

  /** After n names every bucket starts with its elements so far. */
  ghost predicate Filled<V>(elts: seq<Cell<V>>, names: seq<Key<V>>, n: nat, size: nat, line: nat) {
    && size > 0 && Line(line) && n <= |names| && |elts| == Offset(names, size, line, size)
    && forall b :: 0 <= b < size ==> BucketFilled(elts, names, n, size, line, b)
  }

  ghost predicate BucketFilled<V>(elts: seq<Cell<V>>, names: seq<Key<V>>, n: nat, size: nat, line: nat, b: nat)
    requires size > 0 && line > 0 && n <= |names|
  {
    Placed(elts, Offset(names, size, line, b), Select(names[..n], size, b))
  }

  /** Only words lo .. hi may differ. */
  ghost predicate SameOutside<V>(e: seq<Cell<V>>, e': seq<Cell<V>>, lo: nat, hi: nat) {
    |e'| == |e| && forall k :: 0 <= k < |e| && !(lo <= k < hi) ==> e'[k] == e[k]
  }

  lemma EltKept<V>(e: seq<Cell<V>>, e': seq<Cell<V>>, at: nat, item: Key<V>, lo: nat, hi: nat)
    requires EltAt(e, at, item) && SameOutside(e, e', lo, hi) && (at + EltWords(|item.key|) <= lo || hi <= at)
    ensures EltAt(e', at, item)
  {
    EltBytes(|item.key|);
  }

  lemma PlacedKept<V>(e: seq<Cell<V>>, e': seq<Cell<V>>, at: nat, items: seq<Key<V>>, lo: nat, hi: nat)
    requires Placed(e, at, items) && SameOutside(e, e', lo, hi) && (at + Words(items) <= lo || hi <= at)
    ensures Placed(e', at, items)
  {
    hide Words, EltWords, EltAt, SameOutside;
    forall j | 0 <= j < |items|
      ensures EltAt(e', at + Words(items[..j]), items[j])
    {
      assert EltAt(e, at + Words(items[..j]), items[j]);
      WordsPrefix(items, j);
      EltKept(e, e', at + Words(items[..j]), items[j], lo, hi);
    }
  }

  lemma TakeOfMore<T>(items: seq<T>, item: T, j: nat)
    requires j <= |items|
    ensures (items + [item])[..j] == items[..j] && (items + [item])[j] == if j < |items| then items[j] else item
    ensures items[..|items|] == items
  {
  }

  lemma PlacedMore<V>(e: seq<Cell<V>>, at: nat, items: seq<Key<V>>, item: Key<V>)
    requires Placed(e, at, items) && EltAt(e, at + Words(items), item)
    ensures Placed(e, at, items + [item])
  {
    hide Words, EltWords, EltAt;
    forall j | 0 <= j < |items + [item]|
      ensures EltAt(e, at + Words((items + [item])[..j]), (items + [item])[j])
    {
      TakeOfMore(items, item, j);
      if j < |items| { assert EltAt(e, at + Words(items[..j]), items[j]); }
    }
  }

  /** The part of a bucket that is in use so far. */
  ghost function Used<V>(names: seq<Key<V>>, n: nat, size: nat, b: nat): nat
    requires size > 0 && n <= |names|
  {
    Words(Select(names[..n], size, b))
  }

  /** What is in use in a bucket, and one word more, stays within what is reserved for it. */
  lemma UsedFits<V>(names: seq<Key<V>>, n: nat, size: nat, line: nat, b: nat)
    requires size > 0 && Line(line) && n <= |names| && b < size
    ensures Used(names, n, size, b) <= Cap(names, size, line, b)
    ensures Select(names, size, b) != [] ==> Used(names, n, size, b) + 1 <= Cap(names, size, line, b)
    ensures Offset(names, size, line, b) + Cap(names, size, line, b) <= Offset(names, size, line, size)
  {
    TotalMonotone(names, size, b, n);
    CapHolds(names, size, line, b);
    OffsetsApart(names, size, line, b, size);
    if Select(names, size, b) == [] { SelectPrefix(names, size, b, n); }
  }

  /** Another bucket's words are elsewhere. */
  lemma Elsewhere<V>(names: seq<Key<V>>, n: nat, size: nat, line: nat, b: nat, c: nat)
    requires size > 0 && Line(line) && n <= |names| && b < size && c < size && b != c
    ensures var from, to := Offset(names, size, line, b), Offset(names, size, line, b) + Cap(names, size, line, b);
            var at := Offset(names, size, line, c);
            at + Used(names, n, size, c) <= from || to <= at
  {
    UsedFits(names, n, size, line, c);
    if b < c { OffsetsApart(names, size, line, b, c); } else { OffsetsApart(names, size, line, c, b); }
  }

  /** The next element lands inside its bucket. */
  lemma NextFits<V>(names: seq<Key<V>>, n: nat, size: nat, line: nat)
    requires size > 0 && Line(line) && n < |names| && names[n].present
    ensures var b := names[n].hash % size;
      && Select(names, size, b) != []
      && Used(names, n + 1, size, b) == Used(names, n, size, b) + EltWords(|names[n].key|)
      && Used(names, n + 1, size, b) < Cap(names, size, line, b)
      && Offset(names, size, line, b) + Cap(names, size, line, b) <= Offset(names, size, line, size)
  {
    var b := names[n].hash % size;
    SelectNext(names, size, b, n);
    var before := Select(names[..n], size, b);
    assert (before + [names[n]])[..|before|] == before;
    SelectPrefix(names, size, b, n + 1);
    UsedFits(names, n + 1, size, line, b);
  }

  lemma FillBucket<V>(e: seq<Cell<V>>, e': seq<Cell<V>>, names: seq<Key<V>>, n: nat, size: nat, line: nat, c: nat)
    requires size > 0 && Line(line) && n < |names| && names[n].present && c < size && BucketFilled(e, names, n, size, line, c)
    requires var at := Offset(names, size, line, names[n].hash % size) + Used(names, n, size, names[n].hash % size);
             SameOutside(e, e', at, at + EltWords(|names[n].key|)) && EltAt(e', at, names[n])
    ensures BucketFilled(e', names, n + 1, size, line, c)
  {
    hide Placed, EltAt, Select, Words, Cap, SameOutside, EltWords;
    var b := names[n].hash % size;
    var at := Offset(names, size, line, b) + Used(names, n, size, b);
    var before := Select(names[..n], size, c);
    NextFits(names, n, size, line);
    SelectNext(names, size, c, n);
    if c != b { Elsewhere(names, n, size, line, b, c); }
    PlacedKept(e, e', Offset(names, size, line, c), before, at, at + EltWords(|names[n].key|));
    if c == b { PlacedMore(e', Offset(names, size, line, b), before, names[n]); }
  }

  /** Writing the next element where the last one of its bucket ended. */
  lemma FillStep<V>(e: seq<Cell<V>>, e': seq<Cell<V>>, names: seq<Key<V>>, n: nat, size: nat, line: nat)
    requires Filled(e, names, n, size, line) && n < |names| && names[n].present
    requires var at := Offset(names, size, line, names[n].hash % size) + Used(names, n, size, names[n].hash % size);
             SameOutside(e, e', at, at + EltWords(|names[n].key|)) && EltAt(e', at, names[n])
    ensures Filled(e', names, n + 1, size, line)
  {
    hide EltAt, BucketFilled;
    var m := n + 1;
    forall c | 0 <= c < size
      ensures BucketFilled(e', names, m, size, line, c)
    {
      FillBucket(e, e', names, n, size, line, c);
    }
  }

  lemma SkipStep<V>(e: seq<Cell<V>>, names: seq<Key<V>>, n: nat, size: nat, line: nat)
    requires Filled(e, names, n, size, line) && n < |names| && !names[n].present
    ensures Filled(e, names, n + 1, size, line)
  {
    var m := n + 1;
    forall c | 0 <= c < size
      ensures BucketFilled(e, names, m, size, line, c)
    {
      assert BucketFilled(e, names, n, size, line, c);
      SelectNext(names, size, c, n);
    }
  }

  lemma NothingFilled<V>(e: seq<Cell<V>>, names: seq<Key<V>>, size: nat, line: nat)
    requires size > 0 && Line(line) && |e| == Offset(names, size, line, size)
    ensures Filled(e, names, 0, size, line)
  {
    forall b | 0 <= b < size
      ensures BucketFilled(e, names, 0, size, line, b)
    {
    }
  }

  /** One element is written: its value, its length and its name in lower case. */
  method WriteElt<V>(elts: array<Cell<V>>, at: nat, item: Key<V>)
    requires at + EltWords(|item.key|) <= elts.Length && |item.key| < SHORTS
    modifies elts
    ensures SameOutside(old(elts[..]), elts[..], at, at + EltWords(|item.key|)) && EltAt(elts[..], at, item)
  {
    elts[at] := Value(item.value);
    elts[at + 1] := Text(|item.key| % SHORTS, Lower(item.key));
    var k := at + 2;
    while k < at + EltWords(|item.key|)
      invariant at + 2 <= k <= at + EltWords(|item.key|)
      invariant elts[at] == Value(item.value) && elts[at + 1] == Text(|item.key|, Lower(item.key))
      invariant forall i :: 0 <= i < elts.Length && !(at <= i < at + EltWords(|item.key|)) ==> elts[i] == old(elts[..])[i]
    {
      elts[k] := Rest;
      k := k + 1;
    }
  }

  /** One round of the loop over the names: the counters say where the next element of each bucket goes. */
  method FillOne<V>(elts: array<Cell<V>>, test: array<nat>, buckets: seq<int>, names: seq<Key<V>>, n: nat, size: nat, ghost line: nat)
    requires size > 0 && Line(line) && TotalsFit(names, size, line) && elts.Length == Offset(names, size, line, size)
    requires |buckets| == size && forall b :: 0 <= b < size ==> buckets[b] == BucketAt(names, size, line, b)
    requires n < |names| && Tallied(test[..], names[..n], size, 0) && Filled(elts[..], names, n, size, line)
    modifies elts, test
    ensures Tallied(test[..], names[..n + 1], size, 0) && Filled(elts[..], names, n + 1, size, line)
  {
    hide Total, Cap, Select, TotalsFit, Words, Placed, EltAt, Filled, SameOutside, EltSize, Lower, EltWords, Align;
    TallyNext(test[..], names, size, 0, n);
    if !names[n].present {
      SkipStep(elts[..], names, n, size, line);
      return;
    }
    var key := names[n].hash % size;
    ghost var was, tally := elts[..], test[..];
    WhereNext(tally, buckets[key], names, n, size, line);
    assert tally[key] == test[key];
    BelowShorts(names, size, line, key, test[key] + EltSize(|names[n].key|));
    LengthShort(|names[n].key|);
    WriteElt(elts, buckets[key] + test[key] / 8, names[n]);
    FillStep(was, elts[..], names, n, size, line);
    test[key] := (test[key] + EltSize(|names[n].key|)) % SHORTS;
    assert test[..] == tally[key := tally[key] + EltSize(|names[n].key|)];
  }

  method Fill<V>(elts: array<Cell<V>>, buckets: seq<int>, names: seq<Key<V>>, size: nat, ghost line: nat) returns (test: array<nat>)
    requires size > 0 && Line(line) && TotalsFit(names, size, line) && elts.Length == Offset(names, size, line, size)
    requires |buckets| == size && forall b :: 0 <= b < size ==> buckets[b] == BucketAt(names, size, line, b)
    modifies elts
    ensures fresh(test) && Tallied(test[..], names, size, 0) && Filled(elts[..], names, |names|, size, line)
  {
    hide Total, Cap, Select, TotalsFit, Filled, Offset, BucketAt;
    test := new nat[size](_ => 0);
    NothingTallied(test[..], names, size, 0);
    NothingFilled(elts[..], names, size, line);
    var n := 0;
    while n < |names|
      invariant n <= |names| && Tallied(test[..], names[..n], size, 0) && Filled(elts[..], names, n, size, line)
    {
      FillOne(elts, test, buckets, names, n, size, line);
      n := n + 1;
    }
    assert names[..n] == names;
  }

  lemma LengthShort(len: nat)
    ensures len <= EltSize(len)
  {
  }

  lemma BelowShorts<V>(names: seq<Key<V>>, size: nat, line: nat, b: nat, bytes: nat)
    requires size > 0 && line > 0 && TotalsFit(names, size, line) && b < size && bytes <= Total(names, size, b)
    ensures bytes < SHORTS
  {
  }

  lemma WhereNext<V>(test: seq<nat>, bucket: int, names: seq<Key<V>>, n: nat, size: nat, line: nat)
    requires Line(line) && n < |names| && names[n].present && Tallied(test, names[..n], size, 0)
    requires bucket == BucketAt(names, size, line, names[n].hash % size)
    ensures var b := names[n].hash % size;
      && bucket == Offset(names, size, line, b) && test[b] / 8 == Used(names, n, size, b)
      && bucket + test[b] / 8 + EltWords(|names[n].key|) <= Offset(names, size, line, size)
  {
    NextFits(names, n, size, line);
  }

  // ---- the terminators ----

  ghost predicate BucketEnded<V>(elts: seq<Cell<V>>, names: seq<Key<V>>, size: nat, line: nat, b: nat)
    requires size > 0 && line > 0
  {
    Select(names, size, b) != [] ==> Holds(elts, Offset(names, size, line, b), Select(names, size, b))
  }

  ghost predicate Ended<V>(elts: seq<Cell<V>>, names: seq<Key<V>>, size: nat, line: nat, i: nat) {
    Filled(elts, names, |names|, size, line) && forall b :: 0 <= b < i && b < size ==> BucketEnded(elts, names, size, line, b)
  }

  /** Writing the terminator of one bucket leaves another one as it is. */
  lemma EndOther<V>(e: seq<Cell<V>>, names: seq<Key<V>>, size: nat, line: nat, i: nat, c: nat, at: nat)
    requires size > 0 && Line(line) && i < size && c < size && c != i && Select(names, size, i) != []
    requires at == Offset(names, size, line, i) + Words(Select(names, size, i)) && at < |e|
    requires BucketFilled(e, names, |names|, size, line, c)
    ensures BucketFilled(e[at := Null], names, |names|, size, line, c)
    ensures BucketEnded(e, names, size, line, c) ==> BucketEnded(e[at := Null], names, size, line, c)
  {
    hide Select, Words, Cap, Placed, Offset;
    assert names[..|names|] == names;
    UsedFits(names, |names|, size, line, i);
    Elsewhere(names, |names|, size, line, i, c);
    TerminatorElsewhere(names, size, line, i, c);
    PlacedKept(e, e[at := Null], Offset(names, size, line, c), Select(names, size, c), at, at + 1);
  }

  /** Writing its own terminator completes a bucket. */
  lemma EndOwn<V>(e: seq<Cell<V>>, names: seq<Key<V>>, size: nat, line: nat, i: nat, at: nat)
    requires size > 0 && Line(line) && i < size && Select(names, size, i) != []
    requires at == Offset(names, size, line, i) + Words(Select(names, size, i)) && at < |e|
    requires BucketFilled(e, names, |names|, size, line, i)
    ensures BucketFilled(e[at := Null], names, |names|, size, line, i) && BucketEnded(e[at := Null], names, size, line, i)
  {
    hide Select, Words, Placed, Offset;
    assert names[..|names|] == names;
    PlacedKept(e, e[at := Null], Offset(names, size, line, i), Select(names, size, i), at, at + 1);
  }

  lemma EndStep<V>(e: seq<Cell<V>>, names: seq<Key<V>>, size: nat, line: nat, i: nat)
    requires Ended(e, names, size, line, i) && i < size && Select(names, size, i) != []
    ensures Offset(names, size, line, i) + Words(Select(names, size, i)) < |e|
    ensures Ended(e[Offset(names, size, line, i) + Words(Select(names, size, i)) := Null], names, size, line, i + 1)
  {
    hide Select, Words, BucketFilled, BucketEnded, Offset, Cap;
    assert names[..|names|] == names;
    UsedFits(names, |names|, size, line, i);
    var at := Offset(names, size, line, i) + Words(Select(names, size, i));
    var e' := e[at := Null];
    forall c | 0 <= c < size
      ensures BucketFilled(e', names, |names|, size, line, c) && (c <= i ==> BucketEnded(e', names, size, line, c))
    {
      if c == i { EndOwn(e, names, size, line, i, at); } else { EndOther(e, names, size, line, i, c, at); }
    }
  }

  /** The terminator of another bucket is elsewhere, too. */
  lemma TerminatorElsewhere<V>(names: seq<Key<V>>, size: nat, line: nat, b: nat, c: nat)
    requires size > 0 && Line(line) && b < size && c < size && b != c && Select(names, size, b) != []
    ensures var at := Offset(names, size, line, b) + Words(Select(names, size, b));
            Select(names, size, c) != [] ==> at != Offset(names, size, line, c) + Words(Select(names, size, c))
  {
    CapHolds(names, size, line, b);
    CapHolds(names, size, line, c);
    if b < c { OffsetsApart(names, size, line, b, c); } else { OffsetsApart(names, size, line, c, b); }
  }

  lemma EndSkip<V>(e: seq<Cell<V>>, names: seq<Key<V>>, size: nat, line: nat, i: nat)
    requires Ended(e, names, size, line, i) && i < size && Select(names, size, i) == []
    ensures Ended(e, names, size, line, i + 1)
  {
  }

  method Terminate<V>(elts: array<Cell<V>>, test: array<nat>, buckets: seq<int>, ghost names: seq<Key<V>>, size: nat, ghost line: nat)
    requires Filled(elts[..], names, |names|, size, line) && Tallied(test[..], names, size, 0)
    requires |buckets| == size && forall b :: 0 <= b < size ==> buckets[b] == BucketAt(names, size, line, b)
    modifies elts
    ensures Ended(elts[..], names, size, line, size)
  {
    hide Filled, Select, Words, Placed, Cap, BucketEnded;
    var i := 0;
    while i < size
      invariant i <= size && Ended(elts[..], names, size, line, i)
    {
      if buckets[i] == NOWHERE {
        EndSkip(elts[..], names, size, line, i);
      } else {
        EndStep(elts[..], names, size, line, i);
        assert test[..][i] == test[i];
        elts[buckets[i] + test[i] / 8] := Null;
      }
      i := i + 1;
    }
  }

  lemma EndedRepresents<V>(elts: seq<Cell<V>>, buckets: seq<int>, names: seq<Key<V>>, size: nat, line: nat)
    requires Ended(elts, names, size, line, size)
    requires size > 0 && line > 0 && |buckets| == size && forall b :: 0 <= b < size ==> buckets[b] == BucketAt(names, size, line, b)
    ensures Represents(Table(size, buckets, elts), names)
  {
    var t := Table(size, buckets, elts);
    forall b | 0 <= b < size
      ensures BucketOk(t, b, Select(names, size, b))
    {
      assert BucketEnded(elts, names, size, line, b);
    }
  }

  /** Every bucket in use lies, with its terminator, within the words reserved for it. */
  ghost predicate InPlace<V>(t: Table<V>, names: seq<Key<V>>, line: nat) {
    && t.size > 0 && line > 0 && |t.buckets| == t.size && |t.elts| == Offset(names, t.size, line, t.size)
    && forall b :: 0 <= b < t.size ==> t.buckets[b] == BucketAt(names, t.size, line, b)
  }

  /** ngx_hash_init */
  method Init<V>(h: Setup, names: seq<Key<V>>) returns (r: Result<V>)
    requires Line(h.line) && (names == [] ==> h.bucketSize >= 24)
    requires h.maxSize > 0 && h.bucketSize >= 24 && RoomFor(h, names) ==> TotalsFit(names, Chosen(names, h), h.line)
    ensures r == Error <==> h.maxSize == 0 || !RoomFor(h, names)
    ensures r.Ok? ==> h.bucketSize >= 24 && r.table.size == Chosen(names, h)
    ensures r.Ok? ==> Represents(r.table, names) && InPlace(r.table, names, h.line)
  {
    if h.maxSize == 0 {
      return Error;
    }
    var n := 0;
    while n < |names|
      invariant n <= |names| && forall k :: 0 <= k < n ==> EltSize(|names[k].key|) + WORD_BYTES <= h.bucketSize
    {
      if h.bucketSize < EltSize(|names[n].key|) + WORD_BYTES {
        return Error;
      }
      n := n + 1;
    }
    if names != [] { EltBytes(|names[0].key|); }
    var size := ChooseSize(h, names);
    var table := Build(names, size, h.line);
    return Ok(table);
  }

  method Build<V>(names: seq<Key<V>>, size: nat, line: nat) returns (table: Table<V>)
    requires size > 0 && Line(line) && TotalsFit(names, size, line)
    ensures table.size == size && Represents(table, names) && InPlace(table, names, line)
  {
    hide Filled, Ended, Represents, TotalsFit;
    var test := Tally(names, size, line);
    var buckets, len := LayOut(test, names, size, line);
    var elts := new Cell<V>[len](_ => Raw);
    test := Fill(elts, buckets, names, size, line);
    Terminate(elts, test, buckets, names, size, line);
    EndedRepresents(elts[..], buckets, names, size, line);
    return Table(size, buckets, elts[..]);
  }

  // ---- the bytes ----

  /** The byte that element j of a bucket starts at, or for the last j its terminator. */
  ghost function ByteOf<V>(t: Table<V>, items: seq<Key<V>>, b: nat, j: nat): int
    requires b < |t.buckets| && j <= |items|
  {
    8 * (t.buckets[b] + Words(items[..j]))
  }

  /**
   The value, the two bytes of the length and the name of an element end before the next element or the terminator of
   its bucket starts; the terminator ends within the bytes reserved for the bucket, which are whole cache lines.
   */
  lemma BytesInPlace<V>(t: Table<V>, names: seq<Key<V>>, line: nat, b: nat, j: nat)
    requires Represents(t, names) && InPlace(t, names, line) && Line(line) && b < t.size && j < |Select(names, t.size, b)|
    ensures var items := Select(names, t.size, b);
      var from, to := 8 * Offset(names, t.size, line, b), 8 * (Offset(names, t.size, line, b) + Cap(names, t.size, line, b));
      && Whole(from, line) && Whole(to, line) && from <= ByteOf(t, items, b, j)
      && ByteOf(t, items, b, j) + 8 + 2 + |items[j].key| <= ByteOf(t, items, b, j + 1)
      && ByteOf(t, items, b, j + 1) <= ByteOf(t, items, b, |items|) && ByteOf(t, items, b, |items|) + 8 <= to <= 8 * |t.elts|
  {
    hide Represents, Select, Cap, Words, EltWords, Whole;
    var items := Select(names, t.size, b);
    ElementBytes(items, j);
    assert items[..|items|] == items;
    CapHolds(names, t.size, line, b);
    OffsetsApart(names, t.size, line, b, t.size);
    WholeLines(names, t.size, line, b);
    WholeLines(names, t.size, line, b + 1);
  }

  /** The whole words for a value, two bytes of length and a name of `len` bytes, in bytes. */
  ghost predicate Takes(len: nat, bytes: nat) {
    bytes % 8 == 0 && 8 + 2 + len <= bytes < 8 + 2 + len + 8
  }

  /** What Init asks for: whatever the words of a name take, a terminator fits behind them into a bucket. */
  lemma RoomInBytes<V>(h: Setup, names: seq<Key<V>>)
    ensures RoomFor(h, names) <==>
      forall n, bytes: nat :: 0 <= n < |names| && Takes(|names[n].key|, bytes) ==> bytes + 8 <= h.bucketSize
  {
    hide EltSize;
    forall n | 0 <= n < |names| ensures Takes(|names[n].key|, EltSize(|names[n].key|)) {}
  }

  /** The value, the length and the name of an element fit into its words. */
  lemma ElementBytes<V>(items: seq<Key<V>>, j: nat)
    requires j < |items|
    ensures 8 * Words(items[..j]) + 8 + 2 + |items[j].key| <= 8 * Words(items[..j + 1]) <= 8 * Words(items)
  {
    WordsPrefix(items, j);
  }

  /** And this is where the elements and the terminator of a bucket are. */
  lemma ElementsAt<V>(t: Table<V>, names: seq<Key<V>>, b: nat, j: nat)
    requires Represents(t, names) && b < t.size && j < |Select(names, t.size, b)|
    ensures var items := Select(names, t.size, b);
      && 0 <= t.buckets[b] && t.buckets[b] + Words(items) < |t.elts|
      && EltAt(t.elts, t.buckets[b] + Words(items[..j]), items[j]) && t.elts[t.buckets[b] + Words(items)] == Null
  {
    hide Words, Select, EltAt;
    var items := Select(names, t.size, b);
    assert BucketOk(t, b, items) && Holds(t.elts, t.buckets[b], items);
    hide Represents, Holds;
    WalkAt(t.elts, t.buckets[b], items, j);
    WalkAt(t.elts, t.buckets[b], items, |items|);
    assert items[..|items|] == items;
  }

  /** Every bucket starts at a cache line. */
  lemma {:induction false} WholeLines<V>(names: seq<Key<V>>, size: nat, line: nat, b: nat)
    requires size > 0 && Line(line)
    ensures Whole(8 * Offset(names, size, line, b), line)
    decreases b
  {
    hide Cap, Whole;
    if b == 0 {
      WholeTimes(0, line);
    } else {
      WholeLines(names, size, line, b - 1);
      CapLines(names, size, line, b - 1);
      WholeSum(8 * Offset(names, size, line, b - 1), 8 * Cap(names, size, line, b - 1), line);
    }
  }

  lemma CapLines<V>(names: seq<Key<V>>, size: nat, line: nat, b: nat)
    requires size > 0 && Line(line)
    ensures Whole(8 * Cap(names, size, line, b), line)
  {
    AlignFacts(WORD_BYTES + Total(names, size, b), line);
  }
}
