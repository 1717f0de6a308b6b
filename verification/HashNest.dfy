/** The recursion of ngx_hash_wildcard_init. */
module HashNest {
  import opened HashLayout
  import opened HashTable
  import opened HashBuild
  import opened HashFill
  import opened HashShape
  import opened HashRules
  import opened HashWild
  import opened HashCompile

  // ---- what every level of the recursion needs from the setup ----

  /** The different first labels, in order. */
  ghost function Heads(rules: seq<Rule<nat>>): seq<Name> {
    if rules == [] then []
    else
      var before, last := Heads(rules[..|rules| - 1]), rules[|rules| - 1];
      if last.labels == [] || (before != [] && before[|before| - 1] == last.labels[0]) then before else before + [last.labels[0]]
  }

  /** The names of the table for the rules, without their values. */
  ghost function HeadKeys(rules: seq<Rule<nat>>): (r: seq<Key<bool>>)
    ensures |r| == |Heads(rules)| && forall i :: 0 <= i < |r| ==> r[i] == Key(Heads(rules)[i], HashOf(Heads(rules)[i]), true, true)
  {
    seq(|Heads(rules)|, i requires 0 <= i < |Heads(rules)| => Key(Heads(rules)[i], HashOf(Heads(rules)[i]), true, true))
  }

  /** In every table that is built the bucket totals stay below 65536. */
  ghost predicate AllFit(h: Setup, rules: seq<Rule<nat>>)
    decreases Weight(rules)
  {
    && (h.maxSize > 0 && h.bucketSize >= 24 && RoomFor(h, HeadKeys(rules)) ==>
          TotalsFit(HeadKeys(rules), Chosen(HeadKeys(rules), h), h.line))
    && forall a: Name :: Tails(rules, a) != [] ==> (TailsLighter(rules, a); AllFit(h, Tails(rules, a)))
  }

  /** Every label fits into a bucket. */
  ghost predicate LabelsFit(h: Setup, rules: seq<Rule<nat>>) {
    forall i, j :: 0 <= i < |rules| && 0 <= j < |rules[i].labels| ==> EltSize(|rules[i].labels[j]|) + WORD_BYTES <= h.bucketSize
  }

  lemma {:induction false} TailsLabelsFit(h: Setup, rules: seq<Rule<nat>>, a: Name)
    requires LabelsFit(h, rules)
    ensures LabelsFit(h, Tails(rules, a))
    decreases |rules|
  {
    if rules != [] {
      var init := rules[..|rules| - 1];
      forall i, j | 0 <= i < |init| && 0 <= j < |init[i].labels|
        ensures EltSize(|init[i].labels[j]|) + WORD_BYTES <= h.bucketSize
      {
        assert init[i] == rules[i];
      }
      TailsLabelsFit(h, init, a);
      var last := rules[|rules| - 1];
      if |last.labels| > 1 && last.labels[0] == a {
        forall j | 0 <= j < |last.labels| - 1
          ensures EltSize(|last.labels[1..][j]|) + WORD_BYTES <= h.bucketSize
        {
          assert last.labels[1..][j] == last.labels[j + 1];
        }
      }
    }
  }

  lemma {:induction false} HeadsLast(rules: seq<Rule<nat>>)
    requires rules != [] && rules[|rules| - 1].labels != []
    ensures Heads(rules) != [] && Heads(rules)[|Heads(rules)| - 1] == rules[|rules| - 1].labels[0]
  {
  }

  lemma {:induction false} HeadsGroup(rules: seq<Rule<nat>>, n: nat, i: nat, a: Name)
    requires Ordered(rules) && Apart(rules, n) && Group(rules, n, i, a)
    ensures Heads(rules[..i]) == Heads(rules[..n]) + [a]
    decreases i
  {
    hide Ordered;
    assert rules[..i][..i - 1] == rules[..i - 1];
    if n + 1 < i {
      HeadsGroup(rules, n, i - 1, a);
    } else if n > 0 {
      HeadsLast(rules[..n]);
      assert rules[n - 1].labels[0] != rules[n].labels[0];
    }
  }

  /** The heads are first labels of rules. */
  lemma {:induction false} HeadsAreLabels(rules: seq<Rule<nat>>, k: nat) returns (i: nat)
    requires k < |Heads(rules)|
    ensures i < |rules| && rules[i].labels != [] && rules[i].labels[0] == Heads(rules)[k]
    decreases |rules|
  {
    var init := rules[..|rules| - 1];
    if k < |Heads(init)| {
      i := HeadsAreLabels(init, k);
    } else {
      i := |rules| - 1;
    }
  }

  /** Every first label is a head. */
  lemma {:induction false} HeadOfRule(rules: seq<Rule<nat>>, j: nat) returns (k: nat)
    requires j < |rules| && rules[j].labels != []
    ensures k < |Heads(rules)| && Heads(rules)[k] == rules[j].labels[0]
    decreases |rules|
  {
    if j == |rules| - 1 {
      HeadsLast(rules);
      k := |Heads(rules)| - 1;
    } else {
      k := HeadOfRule(rules[..|rules| - 1], j);
    }
  }

  /** What follows the first label fits, for the first n rules. */
  ghost predicate TailsFit(h: Setup, rules: seq<Rule<nat>>, n: nat) {
    n <= |rules| && forall i, j :: 0 <= i < n && 1 <= j < |rules[i].labels| ==> EltSize(|rules[i].labels[j]|) + WORD_BYTES <= h.bucketSize
  }

  lemma TailsFitGroup(h: Setup, rules: seq<Rule<nat>>, n: nat, i: nat, a: Name)
    requires Ordered(rules) && Group(rules, n, i, a) && TailsFit(h, rules, n) && LabelsFit(h, Tails(rules[n..i], a))
    ensures TailsFit(h, rules, i)
  {
    OrderedTails(rules, n, i, a);
    var tails := Tails(rules[n..i], a);
    var skip := if |rules[n].labels| > 1 then n else n + 1;
    forall k, j | n <= k < i && 1 <= j < |rules[k].labels|
      ensures EltSize(|rules[k].labels[j]|) + WORD_BYTES <= h.bucketSize
    {
      assert tails[k - skip].labels[j - 1] == rules[k].labels[j];
    }
  }

  /** If the heads and what follows them fit, every label does. */
  lemma FitsAll(h: Setup, rules: seq<Rule<nat>>)
    requires Ordered(rules) && RoomFor(h, HeadKeys(rules)) && TailsFit(h, rules, |rules|)
    ensures LabelsFit(h, rules)
  {
    forall i, j | 0 <= i < |rules| && 0 <= j < |rules[i].labels|
      ensures EltSize(|rules[i].labels[j]|) + WORD_BYTES <= h.bucketSize
    {
      if j == 0 {
        var k := HeadOfRule(rules, i);
        assert HeadKeys(rules)[k].key == rules[i].labels[0];
      }
    }
  }

  lemma LabelsFitRoom(h: Setup, rules: seq<Rule<nat>>)
    requires LabelsFit(h, rules)
    ensures RoomFor(h, HeadKeys(rules))
  {
    forall k | 0 <= k < |HeadKeys(rules)|
      ensures EltSize(|HeadKeys(rules)[k].key|) + WORD_BYTES <= h.bucketSize
    {
      var i := HeadsAreLabels(rules, k);
      assert EltSize(|rules[i].labels[0]|) + WORD_BYTES <= h.bucketSize;
    }
  }

  // ---- the loop over the groups ----

  /** curr_names holds, for the rules so far, one entry per first label. */
  ghost predicate Progress(curr: seq<Key<Entry>>, rules: seq<Rule<nat>>, n: nat) {
    && n <= |rules| && Keyed(curr) && Apart(rules, n) && SameShape(curr, HeadKeys(rules[..n]))
    && forall a: Name :: EntryOk(Assoc(curr, a), rules[..n], a)
  }

  lemma NoProgress(rules: seq<Rule<nat>>)
    requires Ordered(rules)
    ensures Progress([], rules, 0)
  {
    assert rules[..0] == [];
  }

  lemma {:induction false} PresentKeyed(curr: seq<Key<Entry>>)
    requires Keyed(curr)
    ensures Present(curr) == curr
  {
    if curr != [] {
      PresentKeyed(curr[..|curr| - 1]);
      assert curr == curr[..|curr| - 1] + [curr[|curr| - 1]];
    }
  }

  lemma AssocNext(curr: seq<Key<Entry>>, x: Key<Entry>, b: Name)
    requires Keyed(curr) && Keyed(curr + [x])
    ensures Assoc(curr + [x], b) == if Assoc(curr, b).Some? then Assoc(curr, b) else if x.key == b then Some(x.value) else None
  {
    assert (curr + [x])[|curr|] == x;
    PresentKeyed(curr);
    PresentKeyed(curr + [x]);
    FirstAppend(curr, x, b);
  }

  lemma ShapeNext(curr: seq<Key<Entry>>, rules: seq<Rule<nat>>, n: nat, i: nat, a: Name, e: Entry)
    requires Ordered(rules) && Apart(rules, n) && Group(rules, n, i, a) && SameShape(curr, HeadKeys(rules[..n]))
    ensures SameShape(curr + [Key(a, HashOf(a), e, true)], HeadKeys(rules[..i]))
  {
    HeadsGroup(rules, n, i, a);
    var more := curr + [Key(a, HashOf(a), e, true)];
    forall k | 0 <= k < |more|
      ensures SameKey(more[k], HeadKeys(rules[..i])[k])
    {
      if k < |curr| { assert SameKey(curr[k], HeadKeys(rules[..n])[k]); }
    }
  }

  /** EntryOk looks at nothing but the rule for the label and the rules below it. */
  lemma EntrySame(e: Option<Entry>, rules: seq<Rule<nat>>, others: seq<Rule<nat>>, a: Name)
    requires EntryOk(e, rules, a) && Tails(rules, a) == Tails(others, a) && RuleFor(rules, [a]) == RuleFor(others, [a])
    ensures EntryOk(e, others, a)
  {
    TailsLighter(rules, a);
    TailsLighter(others, a);
  }

  lemma OldLabelFree(curr: seq<Key<Entry>>, rules: seq<Rule<nat>>, n: nat, a: Name)
    requires Progress(curr, rules, n) && n < |rules| && rules[n].labels != [] && rules[n].labels[0] == a
    ensures Assoc(curr, a) == None
  {
    assert Lacks(rules[..n], a) by {
      forall k | 0 <= k < n ensures rules[..n][k].labels != [] && rules[..n][k].labels[0] != a { assert rules[k].labels[0] != rules[n].labels[0]; }
    }
    LackingNothing(rules[..n], a);
    assert EntryOk(Assoc(curr, a), rules[..n], a);
  }

  /** One more group is done. */
  lemma AddGroup(curr: seq<Key<Entry>>, rules: seq<Rule<nat>>, n: nat, i: nat, a: Name, e: Entry)
    requires Ordered(rules) && Progress(curr, rules, n) && Group(rules, n, i, a) && (i < |rules| ==> rules[i].labels[0] != a)
    requires Lower(a) == a && EntryOk(Some(e), rules[..i], a)
    ensures Progress(curr + [Key(a, HashOf(a), e, true)], rules, i)
  {
    hide EntryOk, Ordered, Assoc, SameShape;
    var x := Key(a, HashOf(a), e, true);
    var more := curr + [x];
    GroupEnds(rules, n, i, a);
    GroupOnly(rules, n, i, a);
    ShapeNext(curr, rules, n, i, a, e);
    OldLabelFree(curr, rules, n, a);
    assert Keyed(more);
    forall b: Name
      ensures EntryOk(Assoc(more, b), rules[..i], b)
    {
      AssocNext(curr, x, b);
      if b != a { EntrySame(Assoc(curr, b), rules[..n], rules[..i], b); }
    }
  }

  /** The rules below the label of a group are those of the group. */
  lemma GroupTails(rules: seq<Rule<nat>>, n: nat, i: nat, a: Name)
    requires Ordered(rules) && Apart(rules, n) && Group(rules, n, i, a) && (i < |rules| ==> rules[i].labels[0] != a)
    ensures Tails(rules, a) == Tails(rules[n..i], a)
  {
    hide Ordered, Tails, RuleFor;
    GroupEnds(rules, n, i, a);
    GroupOnly(rules, n, i, a);
    assert Lacks(rules[i..], a) by {
      forall k | 0 <= k < |rules[i..]| ensures rules[i..][k].labels != [] && rules[i..][k].labels[0] != a {
        assert rules[n].labels[0] != rules[i + k].labels[0];
      }
    }
    LackingNothing(rules[i..], a);
    TailsSplit(rules[..i], rules[i..], a);
    assert rules[..i] + rules[i..] == rules;
  }

  lemma BelowFits(h: Setup, rules: seq<Rule<nat>>, a: Name)
    requires AllFit(h, rules) && Tails(rules, a) != []
    ensures AllFit(h, Tails(rules, a)) && Weight(Tails(rules, a)) < Weight(rules)
  {
    TailsLighter(rules, a);
  }

  // ---- the entry of a group ----

  /** The group consists of the label alone. */
  lemma DataEntry(rules: seq<Rule<nat>>, n: nat, i: nat, a: Name)
    requires Ordered(rules) && Apart(rules, n) && Group(rules, n, i, a) && Tails(rules[n..i], a) == []
    ensures EntryOk(Some(Entry(if rules[n].star then 1 else 0, Data(rules[n].value))), rules[..i], a)
  {
    GroupOnly(rules, n, i, a);
    OrderedTails(rules, n, i, a);
  }

  lemma ValueElsewhere(w: Wild, rules: seq<Rule<nat>>, value: Option<nat>)
    requires Compiled(w, rules)
    ensures Compiled(w.(value := value), rules)
  {
    hide Represents, EntryOk;
    var keys :| Represents(w.hash, keys) && Keyed(keys) && forall a: Name :: EntryOk(Assoc(keys, a), rules, a);
  }

  /** There are longer rules: they have a table of their own. */
  lemma TableEntry(rules: seq<Rule<nat>>, n: nat, i: nat, a: Name, w: Wild)
    requires Ordered(rules) && Apart(rules, n) && Group(rules, n, i, a) && Tails(rules[n..i], a) != []
    requires Compiled(w, Tails(rules[n..i], a)) && w.value == if |rules[n].labels| == 1 then Some(rules[n].value) else None
    ensures EntryOk(Some(Entry(if |rules[n].labels| == 1 && !rules[n].star then 2 else 3, Below(w))), rules[..i], a)
  {
    GroupOnly(rules, n, i, a);
    TailsLighter(rules[..i], a);
  }

  // ---- ngx_hash_wildcard_init ----

  method Compile(h: Setup, names: seq<Wildcard<nat>>) returns (r: Outcome)
    requires AllProper(names) && Ordered(Rules(names)) && Line(h.line) && AllFit(h, Rules(names))
    requires names == [] ==> h.bucketSize >= 24
    ensures r.Done? ==> Compiled(r.w, Rules(names)) && r.w.value == None
    ensures r.Done? <==> h.maxSize > 0 && LabelsFit(h, Rules(names))
    decreases Weight(Rules(names)), 1
  {
    hide Progress, Ordered, AllFit, Compiled, LabelsFit, TailsFit, Gathered, AllProper, Group, Proper, EntryOk, RoomFor, TotalsFit, Tails;
    ghost var rules := Rules(names);
    NoTailsYet(h, rules);
    var curr: seq<Key<Entry>> := [];
    NoProgress(rules);
    var n := 0;
    while n < |names|
      invariant n <= |names| && Progress(curr, rules, n) && (n > 0 ==> curr != []) && TailsFit(h, rules, n)
      decreases |names| - n
    {
      var len := ScanLabel(names[n].data);
      var i, next := Gather(names, n, len);
      ghost var a := names[n].data[..len];
      var e := MakeEntry(h, names, n, i, len, next, curr);
      if e == None {
        return Failed;
      }
      ProperAt(names, n);
      GatheredGroup(names, n, i, next);
      LowerPart(names[n].data, len);
      TailsFitGroup(h, rules, n, i, a);
      AddGroup(curr, rules, n, i, a, e.value);
      curr := curr + [Key(names[n].data[..len], HashOf(Lower(names[n].data[..len])), e.value, true)];
      n := i;
    }
    assert rules[..n] == rules;
    LevelFits(h, curr, rules);
    var built := Init(h, curr);
    if built == Error {
      return Failed;
    }
    var w := Wild(built.table, None);
    LevelCompiled(w, curr, rules);
    FitsAll(h, rules);
    return Done(w);
  }

  lemma ProperAt(names: seq<Wildcard<nat>>, n: nat)
    requires AllProper(names) && n < |names|
    ensures Proper(names[n].data) && RuleOf(names[n]).labels != []
  {
  }

  lemma GatheredGroup(names: seq<Wildcard<nat>>, n: nat, i: nat, next: seq<Wildcard<nat>>)
    requires Gathered(names, n, i, next)
    ensures n < i <= |names| && Group(Rules(names), n, i, names[n].data[..LabelEnd(names[n].data)])
  {
  }

  lemma NothingToFit(h: Setup, rules: seq<Rule<nat>>)
    requires rules == []
    ensures LabelsFit(h, rules)
  {
  }

  lemma NoTailsYet(h: Setup, rules: seq<Rule<nat>>)
    ensures TailsFit(h, rules, 0)
  {
  }

  lemma LowerPart(s: Name, n: nat)
    requires Proper(s) && n <= |s|
    ensures Lower(s[..n]) == s[..n]
  {
    forall k | 0 <= k < n ensures Lower(s[..n])[k] == s[..n][k] { assert Lower(s)[k] == s[k]; }
  }

  lemma LevelFits(h: Setup, curr: seq<Key<Entry>>, rules: seq<Rule<nat>>)
    requires Progress(curr, rules, |rules|) && AllFit(h, rules)
    ensures h.maxSize > 0 && h.bucketSize >= 24 && RoomFor(h, curr) ==> TotalsFit(curr, Chosen(curr, h), h.line)
    ensures LabelsFit(h, rules) ==> RoomFor(h, curr)
    ensures RoomFor(h, curr) <==> RoomFor(h, HeadKeys(rules))
  {
    assert rules[..|rules|] == rules;
    ShapeFits(curr, HeadKeys(rules), h);
    if LabelsFit(h, rules) { LabelsFitRoom(h, rules); }
  }

  lemma LevelCompiled(w: Wild, curr: seq<Key<Entry>>, rules: seq<Rule<nat>>)
    requires Progress(curr, rules, |rules|) && Represents(w.hash, curr)
    ensures Compiled(w, rules)
  {
    hide Represents, EntryOk;
    assert rules[..|rules|] == rules;
  }

  /** The value for the label of the group n .. i, with a table for what follows the label if anything does. */
  method MakeEntry(h: Setup, names: seq<Wildcard<nat>>, n: nat, i: nat, len: nat, next: seq<Wildcard<nat>>, ghost curr: seq<Key<Entry>>)
    returns (e: Option<Entry>)
    requires AllProper(names) && Ordered(Rules(names)) && Line(h.line) && AllFit(h, Rules(names))
    requires n < |names| && Progress(curr, Rules(names), n) && len == LabelEnd(names[n].data)
    requires Gathered(names, n, i, next) && (i < |names| ==> Labels(names[i].data)[0] != names[n].data[..len])
    ensures e.Some? ==> EntryOk(e, Rules(names)[..i], names[n].data[..len])
    ensures h.maxSize > 0 && LabelsFit(h, Rules(names)) ==> e.Some?
    ensures e.Some? ==> LabelsFit(h, Tails(Rules(names)[n..i], names[n].data[..len]))
    decreases Weight(Rules(names)), 0
  {
    hide Ordered, AllFit, Compiled, EntryOk, Group, LabelsFit, Proper, Labels, Starred, Tails;
    ghost var rules, a := Rules(names), names[n].data[..len];
    var name := names[n].data;
    var dot := len < |name|;
    var compared := if dot then len + 1 else len;
    HeadOf(name);
    ProgressApart(curr, rules, n);
    if next != [] {
      GroupTails(rules, n, i, a);
      BelowFits(h, rules, a);
      TailsOrdered(rules, n, i, a);
      if LabelsFit(h, rules) { TailsLabelsFit(h, rules, a); }
      var below := Compile(h, next);
      if below == Failed {
        return None;
      }
      var wdc := below.w;
      if |name| == compared {
        wdc := wdc.(value := Some(names[n].value));
      }
      ValueElsewhere(below.w, Rules(next), wdc.value);
      TableEntry(rules, n, i, a, wdc);
      return Some(Entry(if dot then 3 else 2, Below(wdc)));
    }
    DataEntry(rules, n, i, a);
    SingleBare(rules, n, i, a);
    NothingToFit(h, Rules(next));
    if dot {
      return Some(Entry(1, Data(names[n].value)));
    }
    return Some(Entry(0, Data(names[n].value)));
  }

  lemma ProgressApart(curr: seq<Key<Entry>>, rules: seq<Rule<nat>>, n: nat)
    requires Progress(curr, rules, n)
    ensures Apart(rules, n)
  {
  }

  lemma SingleBare(rules: seq<Rule<nat>>, n: nat, i: nat, a: Name)
    requires Ordered(rules) && Group(rules, n, i, a) && Tails(rules[n..i], a) == []
    ensures |rules[n].labels| == 1
  {
    OrderedTails(rules, n, i, a);
  }
}
