/** ngx_hash_init and ngx_hash_find: one table of buckets over one stretch of memory. */
module HashTable {
  import opened HashLayout

  /**
   One eight-byte word of the memory for the elements. An element is its value, the word with its length and name,
   and as many more words as the name needs; a NULL value ends a bucket.
   */
  datatype Cell<V> = Raw | Null | Value(v: V) | Text(len: nat, name: Name) | Rest

  const NOWHERE := -1

  /** ngx_hash_t; a bucket is the index of its first word, or NOWHERE. */
  datatype Table<V> = Table(size: nat, buckets: seq<int>, elts: seq<Cell<V>>)

  // ---- what the words of a bucket hold ----

  /** The element `item` starts at word `at`. */
  ghost predicate EltAt<V>(elts: seq<Cell<V>>, at: nat, item: Key<V>) {
    at + 1 < |elts| && elts[at] == Value(item.value) && elts[at + 1] == Text(|item.key|, Lower(item.key))
  }

  /** The items stand one after the other from word `at` on. */
  ghost predicate Placed<V>(elts: seq<Cell<V>>, at: nat, items: seq<Key<V>>) {
    forall j :: 0 <= j < |items| ==> EltAt(elts, at + Words(items[..j]), items[j])
  }

  ghost predicate Holds<V>(elts: seq<Cell<V>>, at: nat, items: seq<Key<V>>) {
    Placed(elts, at, items) && at + Words(items) < |elts| && elts[at + Words(items)] == Null
  }

  /** Every bucket holds its names, in order, and a terminator. */
  ghost predicate Represents<V>(t: Table<V>, names: seq<Key<V>>) {
    && t.size > 0 && |t.buckets| == t.size
    && forall b :: 0 <= b < t.size ==> BucketOk(t, b, Select(names, t.size, b))
  }

  ghost predicate BucketOk<V>(t: Table<V>, b: nat, items: seq<Key<V>>)
    requires b < |t.buckets|
  {
    if items == [] then t.buckets[b] == NOWHERE else 0 <= t.buckets[b] && Holds(t.elts, t.buckets[b], items)
  }

  // ---- ngx_hash_find ----

  method SameName(a: Name, b: Name) returns (same: bool)
    requires |a| == |b|
    ensures same <==> a == b
  {
    var i := 0;
    while i < |a|
      invariant i <= |a| && a[..i] == b[..i]
    {
      if a[i] != b[i] {
        return false;
      }
      i := i + 1;
    }
    assert a == a[..i] && b == b[..i];
    return true;
  }

  /** The j-th word of the walk is the next element, or the terminator behind the last one. */
  lemma WalkAt<V>(elts: seq<Cell<V>>, at: nat, items: seq<Key<V>>, j: nat)
    requires Holds(elts, at, items) && j <= |items|
    ensures at + Words(items[..j]) < |elts| && (elts[at + Words(items[..j])] == Null <==> j == |items|)
    ensures j < |items| ==> EltAt(elts, at + Words(items[..j]), items[j])
  {
    if j == |items| {
      assert items[..j] == items;
    } else {
      assert EltAt(elts, at + Words(items[..j]), items[j]);
    }
  }

  /** Going past an element with another name. */
  lemma WalkOn<V>(items: seq<Key<V>>, j: nat, name: Name)
    requires j < |items| && First(items[..j], name) == None && Lower(items[j].key) != name
    ensures First(items[..j + 1], name) == None && Words(items[..j + 1]) == Words(items[..j]) + EltWords(|items[j].key|)
  {
    assert items[..j + 1] == items[..j] + [items[j]];
    FirstAppend(items[..j], items[j], name);
    WordsPrefix(items, j);
  }

  /** The walk along one bucket. */
  method FindIn<V>(elts: seq<Cell<V>>, at: nat, name: Name, ghost items: seq<Key<V>>) returns (r: Option<V>)
    requires Holds(elts, at, items)
    ensures r == First(items, name)
  {
    hide Holds, First, Words, Lower;
    var elt := at;
    ghost var j := 0;
    NothingYet(items, name);
    WalkAt(elts, at, items, 0);
    while elts[elt] != Null
      invariant j <= |items| && elt == at + Words(items[..j]) && elt < |elts| && First(items[..j], name) == None
      decreases |items| - j
    {
      WalkAt(elts, at, items, j);
      var text := elts[elt + 1];
      if text.len == |name| {
        var same := SameName(text.name, name);
        if same {
          FirstPrefix(items, j, name);
          return Some(elts[elt].v);
        }
      }
      WalkOn(items, j, name);
      WalkAt(elts, at, items, j + 1);
      elt := elt + 1 + TextWords(text.len);
      j := j + 1;
    }
    WalkAt(elts, at, items, j);
    assert items[..j] == items;
    return None;
  }

  lemma NothingYet<V>(items: seq<Key<V>>, name: Name)
    ensures items[..0] == [] && First(items[..0], name) == None && Words(items[..0]) == 0
  {
  }

  /** ngx_hash_find */
  method Find<V>(t: Table<V>, key: nat, name: Name, ghost names: seq<Key<V>>) returns (r: Option<V>)
    requires Represents(t, names)
    ensures r == First(Select(names, t.size, key % t.size), name)
    ensures Hashed(names, name, key) ==> r == Assoc(names, name)
  {
    ghost var items := Select(names, t.size, key % t.size);
    if Hashed(names, name, key) { BucketEnough(names, t.size, name, key); }
    assert BucketOk(t, key % t.size, items);
    var elt := t.buckets[key % t.size];
    if elt == NOWHERE {
      return None;
    }
    r := FindIn(t.elts, elt, name, items);
  }
}
