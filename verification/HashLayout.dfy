/** Names, and where ngx_hash_init puts them: buckets, sizes and offsets. */
module HashLayout {

  type Byte = b: int | 0 <= b < 256

  type Name = seq<Byte>

  datatype Option<T> = None | Some(value: T)

  /** ngx_tolower */
  function LowerByte(c: Byte): Byte {
    if 0x41 <= c <= 0x5a then c + 0x20 else c
  }

  /** ngx_strlow */
  function Lower(s: Name): (r: Name)
    ensures |r| == |s| && forall i :: 0 <= i < |s| ==> r[i] == LowerByte(s[i])
  {
    seq(|s|, i requires 0 <= i < |s| => LowerByte(s[i]))
  }

  /** The same byte, or the same letter of the English alphabet in the other case. */
  predicate SameLetter(a: Byte, b: Byte) {
    || a == b
    || (0x41 <= a <= 0x5a && b == a + 0x20)
    || (0x41 <= b <= 0x5a && a == b + 0x20)
  }

  /** In lower case there are no upper-case letters left, and nothing but the case of letters is lost. */
  lemma LowerExactly(s: Name, t: Name)
    ensures forall i :: 0 <= i < |s| ==> !(0x41 <= Lower(s)[i] <= 0x5a) && SameLetter(s[i], Lower(s)[i])
    ensures Lower(s) == Lower(t) <==> |s| == |t| && forall i :: 0 <= i < |s| ==> SameLetter(s[i], t[i])
  {
    if Lower(s) == Lower(t) {
      forall i | 0 <= i < |s| ensures SameLetter(s[i], t[i]) { assert Lower(s)[i] == Lower(t)[i]; }
    }
    if |s| == |t| && forall i :: 0 <= i < |s| ==> SameLetter(s[i], t[i]) {
      assert Lower(s) == Lower(t);
    }
  }

  /** ngx_hash(key, c), in machine words */
  function HashStep(key: nat, c: Byte): nat {
    (key * 31 + c) % 0x1_0000_0000_0000_0000
  }

  /** ngx_hash_key */
  function HashOf(s: Name): nat {
    if s == [] then 0 else HashStep(HashOf(s[..|s| - 1]), s[|s| - 1])
  }

  function Power31(n: nat): nat {
    if n == 0 then 1 else 31 * Power31(n - 1)
  }

  /** The bytes of a name as the digits of a number to the base 31. */
  function Number31(s: Name): nat {
    if s == [] then 0 else s[0] * Power31(|s| - 1) + Number31(s[1..])
  }

  lemma {:induction false} NextDigit(s: Name, c: Byte)
    ensures Number31(s + [c]) == 31 * Number31(s) + c
    decreases |s|
  {
    if s == [] {
      assert ([] + [c])[1..] == [];
    } else {
      assert (s + [c])[1..] == s[1..] + [c];
      NextDigit(s[1..], c);
      assert s[0] * Power31(|s|) == 31 * (s[0] * Power31(|s| - 1));
    }
  }

  lemma RemainderStep(x: nat, c: nat)
    ensures (31 * (x % 0x1_0000_0000_0000_0000) + c) % 0x1_0000_0000_0000_0000 == (31 * x + c) % 0x1_0000_0000_0000_0000
  {
  }

  /** The hash value of a name is that number, in a machine word. */
  lemma {:induction false} HashIsNumber(s: Name)
    ensures HashOf(s) == Number31(s) % 0x1_0000_0000_0000_0000
    decreases |s|
  {
    if s != [] {
      var init, c := s[..|s| - 1], s[|s| - 1];
      assert s == init + [c];
      HashIsNumber(init);
      NextDigit(init, c);
      RemainderStep(Number31(init), c);
    }
  }

  /** ngx_hash_key_t; `present` is false if key.data is NULL */
  datatype Key<V> = Key(key: Name, hash: nat, value: V, present: bool)

  /** The bytes of an address. */
  const WORD_BYTES := 8

  /** The range of u_short */
  const SHORTS := 0x1_0000

  function Align(x: nat, a: nat): nat
    requires a > 0
  {
    (x + a - 1) / a * a
  }

  /** Eight-byte words for the two bytes of the length and the bytes of a name. */
  function TextWords(len: nat): (w: nat)
    ensures 2 + len <= 8 * w < 2 + len + 8
  {
    (len + 2 + 7) / 8
  }

  /** NGX_HASH_ELT_SIZE: the value, the length and the name, in whole words. */
  function EltSize(len: nat): (bytes: nat)
    ensures bytes % 8 == 0 && 8 + 2 + len <= bytes < 8 + 2 + len + 8
  {
    WORD_BYTES + Align(len + 2, WORD_BYTES)
  }

  /** The words of one element: its value and its text. */
  function EltWords(len: nat): nat {
    1 + TextWords(len)
  }

  lemma EltBytes(len: nat)
    ensures EltSize(len) == 8 * EltWords(len) && EltSize(len) >= 16
  {
  }

  /** The names that fall into bucket b of `size`, in order. */
  ghost function Select<V>(names: seq<Key<V>>, size: nat, b: nat): seq<Key<V>>
    requires size > 0
  {
    if names == [] then []
    else
      var last := names[|names| - 1];
      var before := Select(names[..|names| - 1], size, b);
      if last.present && last.hash % size == b then before + [last] else before
  }

  /** The words that elements take one after the other. */
  ghost function Words<V>(items: seq<Key<V>>): nat {
    if items == [] then 0 else Words(items[..|items| - 1]) + EltWords(|items[|items| - 1].key|)
  }

  /** The bytes of bucket b, without the terminator. */
  ghost function Total<V>(names: seq<Key<V>>, size: nat, b: nat): nat
    requires size > 0
  {
    8 * Words(Select(names, size, b))
  }

  /** The words set aside for a bucket: its elements and the terminator, rounded up to cache lines; none if it is empty. */
  ghost function Cap<V>(names: seq<Key<V>>, size: nat, line: nat, b: nat): nat
    requires size > 0 && line > 0
  {
    if Select(names, size, b) == [] then 0 else Align(WORD_BYTES + Total(names, size, b), line) / 8
  }

  /** Where the words of bucket b start. */
  ghost function Offset<V>(names: seq<Key<V>>, size: nat, line: nat, b: nat): nat
    requires size > 0 && line > 0
  {
    if b == 0 then 0 else Offset(names, size, line, b - 1) + Cap(names, size, line, b - 1)
  }

  /** A cache line is a whole number of words. */
  ghost predicate Line(line: nat) {
    line > 0 && line % 8 == 0
  }

  /** The counters of ngx_hash_init hold the bucket totals: they are unsigned shorts. */
  ghost predicate TotalsFit<V>(names: seq<Key<V>>, size: nat, line: nat)
    requires size > 0
  {
    forall b :: 0 <= b < size ==> WORD_BYTES + Total(names, size, b) + line <= SHORTS
  }

  /** A whole number of cache lines. */
  ghost predicate Whole(bytes: nat, line: nat)
    requires line > 0
  {
    bytes == 0 || (bytes >= line && Whole(bytes - line, line))
  }

  lemma {:induction false} WholeTimes(q: nat, line: nat)
    requires line > 0
    ensures Whole(q * line, line)
  {
    if q > 0 {
      WholeTimes(q - 1, line);
      assert q * line == (q - 1) * line + line;
    }
  }

  lemma {:induction false} WholeSum(x: nat, y: nat, line: nat)
    requires line > 0 && Whole(x, line) && Whole(y, line)
    ensures Whole(x + y, line)
    decreases x
  {
    if x > 0 { WholeSum(x - line, y, line); }
  }

  lemma AlignFacts(x: nat, line: nat)
    requires Line(line)
    ensures x <= Align(x, line) < x + line && Align(x, line) % 8 == 0 && Whole(Align(x, line), line)
  {
    var q := (x + line - 1) / line;
    assert q * line == Align(x, line);
    MulEight(q, line);
    WholeTimes(q, line);
  }

  lemma MulEight(q: nat, line: nat)
    requires line % 8 == 0
    ensures q * line % 8 == 0
  {
    assert q * line == 8 * (q * (line / 8));
  }

  lemma {:induction false} WordsAppend<V>(items: seq<Key<V>>, more: seq<Key<V>>)
    ensures Words(items + more) == Words(items) + Words(more)
    decreases more
  {
    if more == [] {
      assert items + more == items;
    } else {
      assert (items + more)[..|items + more| - 1] == items + more[..|more| - 1];
      WordsAppend(items, more[..|more| - 1]);
    }
  }

  lemma WordsPrefix<V>(items: seq<Key<V>>, j: nat)
    requires j <= |items|
    ensures Words(items[..j]) <= Words(items)
    ensures j < |items| ==> Words(items[..j + 1]) == Words(items[..j]) + EltWords(|items[j].key|) && Words(items[..j + 1]) <= Words(items)
  {
    assert items == items[..j] + items[j..];
    WordsAppend(items[..j], items[j..]);
    if j < |items| {
      assert items == items[..j + 1] + items[j + 1..];
      WordsAppend(items[..j + 1], items[j + 1..]);
      assert items[..j + 1][..j] == items[..j];
    }
  }

  /** A bucket that is used has room for its elements and one more word. */
  lemma CapHolds<V>(names: seq<Key<V>>, size: nat, line: nat, b: nat)
    requires size > 0 && Line(line)
    ensures Select(names, size, b) != [] ==> Words(Select(names, size, b)) + 1 <= Cap(names, size, line, b)
  {
    AlignFacts(WORD_BYTES + Total(names, size, b), line);
  }

  lemma {:induction false} OffsetsApart<V>(names: seq<Key<V>>, size: nat, line: nat, b: nat, c: nat)
    requires size > 0 && line > 0 && b < c
    ensures Offset(names, size, line, b) + Cap(names, size, line, b) <= Offset(names, size, line, c)
    decreases c
  {
    if b + 1 < c { OffsetsApart(names, size, line, b, c - 1); }
  }

  /** The elements of a part of the names are the first elements of the bucket. */
  lemma {:induction false} SelectPrefix<V>(names: seq<Key<V>>, size: nat, b: nat, n: nat)
    requires size > 0 && n <= |names|
    ensures Select(names[..n], size, b) <= Select(names, size, b)
    decreases |names|
  {
    if n < |names| {
      var k := |names| - 1;
      SelectPrefix(names[..k], size, b, n);
      assert names[..k][..n] == names[..n];
    } else {
      assert names[..n] == names;
    }
  }

  lemma SelectNext<V>(names: seq<Key<V>>, size: nat, b: nat, n: nat)
    requires size > 0 && n < |names|
    ensures Select(names[..n + 1], size, b) ==
      if names[n].present && names[n].hash % size == b then Select(names[..n], size, b) + [names[n]] else Select(names[..n], size, b)
  {
    assert names[..n + 1][..n] == names[..n];
  }

  lemma {:induction false} SelectFrom<V>(names: seq<Key<V>>, size: nat, b: nat, j: nat) returns (n: nat)
    requires size > 0 && j < |Select(names, size, b)|
    ensures n < |names| && names[n] == Select(names, size, b)[j] && names[n].present && names[n].hash % size == b
    decreases |names|
  {
    var k := |names| - 1;
    var before := Select(names[..k], size, b);
    if j < |before| {
      n := SelectFrom(names[..k], size, b, j);
    } else {
      n := k;
    }
  }

  // ---- looking names up ----

  /** The first item with the given name. */
  ghost function First<V>(items: seq<Key<V>>, name: Name): Option<V> {
    if items == [] then None
    else
      var before := First(items[..|items| - 1], name);
      if before.Some? then before
      else if Lower(items[|items| - 1].key) == name then Some(items[|items| - 1].value) else None
  }

  ghost function Present<V>(names: seq<Key<V>>): seq<Key<V>> {
    if names == [] then []
    else
      var last := names[|names| - 1];
      if last.present then Present(names[..|names| - 1]) + [last] else Present(names[..|names| - 1])
  }

  /** The association list: the value of the first name that is, in lower case, the given one. */
  ghost function Assoc<V>(names: seq<Key<V>>, name: Name): Option<V> {
    First(Present(names), name)
  }

  /** The hash values agree with the name that is looked up. */
  ghost predicate Hashed<V>(names: seq<Key<V>>, name: Name, hash: nat) {
    forall n :: 0 <= n < |names| && names[n].present && Lower(names[n].key) == name ==> names[n].hash == hash
  }

  /** Looking only into the bucket of the hash value is as good as looking through all names. */
  lemma {:induction false} BucketEnough<V>(names: seq<Key<V>>, size: nat, name: Name, hash: nat)
    requires size > 0 && Hashed(names, name, hash)
    ensures First(Select(names, size, hash % size), name) == Assoc(names, name)
    decreases |names|
  {
    if names != [] {
      var k := |names| - 1;
      forall n | 0 <= n < k && names[..k][n].present && Lower(names[..k][n].key) == name
        ensures names[..k][n].hash == hash
      {
        assert names[n].present;
      }
      BucketEnough(names[..k], size, name, hash);
      FirstAppend(Select(names[..k], size, hash % size), names[k], name);
      FirstAppend(Present(names[..k]), names[k], name);
    }
  }

  lemma FirstAppend<V>(items: seq<Key<V>>, x: Key<V>, name: Name)
    ensures First(items + [x], name) ==
      if First(items, name).Some? then First(items, name) else if Lower(x.key) == name then Some(x.value) else None
  {
    assert (items + [x])[..|items|] == items;
  }

  /** Looking only at the first j items. */
  lemma {:induction false} FirstPrefix<V>(items: seq<Key<V>>, j: nat, name: Name)
    requires j < |items| && Lower(items[j].key) == name && First(items[..j], name) == None
    ensures First(items, name) == Some(items[j].value)
    decreases |items|
  {
    var k := |items| - 1;
    if j < k {
      assert items[..k][..j] == items[..j];
      FirstPrefix(items[..k], j, name);
    }
  }
}
