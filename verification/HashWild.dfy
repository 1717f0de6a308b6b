/** The nested tables of wildcard names, and ngx_hash_find_wc_head, which looks them up label by label. */
module HashWild {
  import opened HashLayout
  import opened HashTable
  import opened HashRules

  /** ngx_hash_wildcard_t; values are addresses of data, as numbers. */
  datatype Wild = Wild(hash: Table<Entry>, value: Option<nat>)

  /** A value in such a table: its two lowest bits, and what the rest of it points to. */
  datatype Entry = Entry(low: nat, to: Target)

  datatype Target = Data(v: nat) | Below(w: Wild)

  // ---- which tables implement which rules ----

  /** The names in a table are in lower case and carry their own hash value. */
  ghost predicate Keyed(keys: seq<Key<Entry>>) {
    forall n :: 0 <= n < |keys| ==> keys[n].present && Lower(keys[n].key) == keys[n].key && keys[n].hash == HashOf(keys[n].key)
  }

  /**
   The entry for the label a. Without longer rules it is the value of the rule for a alone, bit 0 set if that has a
   star. With longer rules it is a table for them, bit 1 set; the table carries the value of the rule for a alone,
   and bit 0 is clear exactly if that rule exists and has no star.
   */
  ghost predicate EntryOk(e: Option<Entry>, rules: seq<Rule<nat>>, a: Name)
    decreases Weight(rules), 0
  {
    TailsLighter(rules, a);
    var bare, tails := RuleFor(rules, [a]), Tails(rules, a);
    if tails != [] then
      && e.Some? && e.value.low == (if bare.Some? && !bare.value.star then 2 else 3) && e.value.to.Below?
      && e.value.to.w.value == (if bare.Some? then Some(bare.value.value) else None) && Compiled(e.value.to.w, tails)
    else if bare.Some? then
      e == Some(Entry(if bare.value.star then 1 else 0, Data(bare.value.value)))
    else e == None
  }

  ghost predicate Compiled(w: Wild, rules: seq<Rule<nat>>)
    decreases Weight(rules), 1
  {
    exists keys :: Represents(w.hash, keys) && Keyed(keys) && forall a: Name :: EntryOk(Assoc(keys, a), rules, a)
  }

  // ---- the name that is looked up ----

  /** Where the last label starts. */
  function LabelStart(s: Name): (n: nat)
    ensures n <= |s| && (n > 0 ==> s[n - 1] == DOT) && forall k :: n <= k < |s| ==> s[k] != DOT
  {
    if s == [] || s[|s| - 1] == DOT then |s| else LabelStart(s[..|s| - 1])
  }

  /** The labels of a name, the last one first. */
  ghost function Split(s: Name): (r: seq<Name>)
    ensures r != []
    decreases |s|
  {
    var n := LabelStart(s);
    if n == 0 then [s] else [s[n..]] + Split(s[..n - 1])
  }

  /** Labels, the last one first, with dots between them. */
  function DottedBack(labels: seq<Name>): Name {
    if labels == [] then [] else if |labels| == 1 then labels[0] else DottedBack(labels[1..]) + [DOT] + labels[0]
  }

  /** The labels of a name are its parts between the dots. */
  lemma {:induction false} SplitMakesName(s: Name)
    ensures DottedBack(Split(s)) == s && forall i :: 0 <= i < |Split(s)| ==> DOT !in Split(s)[i]
    decreases |s|
  {
    var n := LabelStart(s);
    assert DOT !in s[n..] by { forall k | 0 <= k < |s| - n ensures s[n..][k] != DOT {} }
    if n > 0 {
      SplitMakesName(s[..n - 1]);
      assert Split(s)[1..] == Split(s[..n - 1]);
      assert s == s[..n - 1] + [DOT] + s[n..];
    } else {
      assert s[n..] == s;
    }
  }

  method LastLabel(name: Name) returns (n: nat)
    ensures n == LabelStart(name)
  {
    n := |name|;
    while n > 0 && name[n - 1] != DOT
      invariant n <= |name| && LabelStart(name[..n]) == LabelStart(name)
      decreases n
    {
      assert name[..n][..n - 1] == name[..n - 1];
      n := n - 1;
    }
    assert n > 0 ==> name[..n][n - 1] == DOT;
  }

  method HashLabel(name: Name, n: nat) returns (key: nat)
    requires n <= |name|
    ensures key == HashOf(name[n..])
  {
    key := 0;
    var i := n;
    while i < |name|
      invariant n <= i <= |name| && key == HashOf(name[n..i])
    {
      assert name[n..i + 1][..i - n] == name[n..i];
      key := HashStep(key, name[i]);
      i := i + 1;
    }
    assert name[n..i] == name[n..];
  }

  lemma KeyedHashed(keys: seq<Key<Entry>>, part: Name)
    requires Keyed(keys)
    ensures Hashed(keys, part, HashOf(part))
  {
  }

  /** ngx_hash_find for one label: the entry that the rules ask for. */
  method FindLabel(w: Wild, name: Name, n: nat, ghost rules: seq<Rule<nat>>) returns (e: Option<Entry>)
    requires n <= |name| && Compiled(w, rules)
    ensures EntryOk(e, rules, name[n..])
  {
    hide EntryOk, Represents, Keyed, Assoc;
    ghost var keys :| Represents(w.hash, keys) && Keyed(keys) && forall a: Name :: EntryOk(Assoc(keys, a), rules, a);
    var key := HashLabel(name, n);
    KeyedHashed(keys, name[n..]);
    e := Find(w.hash, key, name[n..], keys);
  }

  /** What the search finds, given what it finds below the first label. */
  lemma SearchStep(rules: seq<Rule<nat>>, query: seq<Name>)
    requires query != []
    ensures var bare := RuleFor(rules, [query[0]]);
      Naive(rules, query, |query|) ==
        OrElse(Naive(Tails(rules, query[0]), query[1..], |query| - 1),
               if bare.Some? && !(bare.value.star && |query| == 1) then Some(bare.value.value) else None)
  {
    NaiveStep(rules, query, |query|);
  }

  lemma {:induction false} NoRules(query: seq<Name>, k: nat)
    requires k <= |query|
    ensures Naive<nat>([], query, k) == None
    decreases k
  {
    if k > 0 { NoRules(query, k - 1); }
  }

  /**
   ngx_hash_find_wc_head. What it returns, or the value of the table itself if that is nothing, is what the naive
   search for the longest rule finds.
   */
  method FindHead(w: Wild, name: Name, ghost rules: seq<Rule<nat>>) returns (r: Option<nat>)
    requires Compiled(w, rules)
    ensures OrElse(r, w.value) == OrElse(Naive(rules, Split(name), |Split(name)|), w.value)
    decreases |name|
  {
    hide Naive, Compiled;
    var n := LastLabel(name);
    ghost var query := Split(name);
    ghost var a := name[n..];
    assert query[0] == a && (if n == 0 then |query| == 1 else query[1..] == Split(name[..n - 1]));
    SearchStep(rules, query);
    NoRules(query[1..], |query| - 1);
    var value := FindLabel(w, name, n, rules);
    if value.Some? {
      if value.value.low / 2 % 2 == 1 {
        if n == 0 {
          NoQuery(Tails(rules, a), query[1..]);
          if value.value.low % 2 == 1 {
            return None;
          }
          return value.value.to.w.value;
        }
        var below := value.value.to.w;
        r := FindHead(below, name[..n - 1], Tails(rules, a));
        if r.Some? {
          return r;
        }
        return below.value;
      }
      if value.value.low % 2 == 1 {
        if n == 0 {
          return None;
        }
        return Some(value.value.to.v);
      }
      return Some(value.value.to.v);
    }
    return w.value;
  }

  lemma NoQuery(rules: seq<Rule<nat>>, query: seq<Name>)
    requires query == []
    ensures Naive(rules, query, 0) == None
  {
  }

  /** At the top, where the table has no value of its own, the result is exactly that of the naive search. */
  method FindTop(w: Wild, name: Name, ghost rules: seq<Rule<nat>>) returns (r: Option<nat>)
    requires Compiled(w, rules) && w.value == None
    ensures r == Naive(rules, Split(name), |Split(name)|)
  {
    r := FindHead(w, name, rules);
  }
}
