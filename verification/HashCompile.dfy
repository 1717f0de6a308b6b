/** ngx_hash_wildcard_init: sorted wildcard names are turned into nested tables, one label at a time. */
module HashCompile {
  import opened HashLayout
  import opened HashRules
  import opened HashWild

  datatype Outcome = Done(w: Wild) | Failed

  // ---- rules by their first label ----

  lemma {:induction false} TailsSplit(r: seq<Rule<nat>>, s: seq<Rule<nat>>, a: Name)
    ensures Tails(r + s, a) == Tails(r, a) + Tails(s, a)
    decreases |s|
  {
    if s == [] {
      assert r + s == r;
    } else {
      assert (r + s)[..|r + s| - 1] == r + s[..|s| - 1];
      TailsSplit(r, s[..|s| - 1], a);
    }
  }

  lemma {:induction false} RuleForSplit(r: seq<Rule<nat>>, s: seq<Rule<nat>>, labels: seq<Name>)
    ensures RuleFor(r + s, labels) == OrElse(RuleFor(r, labels), RuleFor(s, labels))
    decreases |s|
  {
    if s == [] {
      assert r + s == r;
    } else {
      assert (r + s)[..|r + s| - 1] == r + s[..|s| - 1];
      RuleForSplit(r, s[..|s| - 1], labels);
    }
  }

  ghost predicate Lacks(rules: seq<Rule<nat>>, a: Name) {
    forall i :: 0 <= i < |rules| ==> rules[i].labels != [] && rules[i].labels[0] != a
  }

  lemma {:induction false} LackingNothing(rules: seq<Rule<nat>>, a: Name)
    requires Lacks(rules, a)
    ensures Tails(rules, a) == [] && RuleFor(rules, [a]) == None
    decreases |rules|
  {
    if rules != [] { LackingNothing(rules[..|rules| - 1], a); }
  }

  /** Rules n .. i are the ones with the first label a. */
  ghost predicate Group(rules: seq<Rule<nat>>, n: nat, i: nat, a: Name) {
    n < i <= |rules| && forall k :: n <= k < i ==> rules[k].labels != [] && rules[k].labels[0] == a
  }

  lemma GroupLacks(rules: seq<Rule<nat>>, n: nat, i: nat, a: Name, b: Name)
    requires Group(rules, n, i, a) && b != a
    ensures Lacks(rules[n..i], b)
  {
  }

  /** Labels met so far do not come back. */
  ghost predicate Apart(rules: seq<Rule<nat>>, n: nat) {
    forall i, j :: 0 <= i < n <= j < |rules| ==> rules[i].labels != [] && rules[j].labels != [] && rules[i].labels[0] != rules[j].labels[0]
  }

  /** In an ordered list equal first labels stand together. */
  lemma GroupEnds(rules: seq<Rule<nat>>, n: nat, i: nat, a: Name)
    requires Ordered(rules) && Apart(rules, n) && Group(rules, n, i, a) && (i < |rules| ==> rules[i].labels[0] != a)
    ensures Apart(rules, i)
  {
    forall k, j | 0 <= k < i <= j < |rules|
      ensures rules[k].labels != [] && rules[j].labels != [] && rules[k].labels[0] != rules[j].labels[0]
    {
      if n <= k {
        assert Before(rules[k].labels, rules[i].labels);
        LessOneWay(rules[k].labels[0], rules[i].labels[0]);
        if i < j {
          assert Before(rules[i].labels, rules[j].labels);
        }
      }
    }
  }

  /** A rule for the label alone can only be the first of its group. */
  lemma BareFirst(rules: seq<Rule<nat>>, n: nat, i: nat)
    requires Ordered(rules) && n < i < |rules| && rules[n].labels[0] == rules[i].labels[0]
    ensures |rules[i].labels| > 1
  {
    assert Before(rules[n].labels, rules[i].labels);
    assert Before(rules[n].labels[1..], rules[i].labels[1..]);
  }

  lemma {:induction false} OrderedTails(rules: seq<Rule<nat>>, n: nat, i: nat, a: Name)
    requires Ordered(rules) && Group(rules, n, i, a)
    ensures |Tails(rules[n..i], a)| == i - n - if |rules[n].labels| > 1 then 0 else 1
    ensures forall k :: 0 <= k < |Tails(rules[n..i], a)| ==>
      var from := rules[if |rules[n].labels| > 1 then n + k else n + 1 + k];
      |from.labels| > 1 && Tails(rules[n..i], a)[k] == from.(labels := from.labels[1..])
    decreases i
  {
    hide Ordered, Tails;
    NoTails(rules, n, a);
    TailsNext(rules, n, i - 1, a);
    if n + 1 < i {
      OrderedTails(rules, n, i - 1, a);
      BareFirst(rules, n, i - 1);
    }
  }

  lemma TailsOrdered(rules: seq<Rule<nat>>, n: nat, i: nat, a: Name)
    requires Ordered(rules) && Group(rules, n, i, a)
    ensures Ordered(Tails(rules[n..i], a))
  {
    OrderedTails(rules, n, i, a);
    var tails := Tails(rules[n..i], a);
    var skip := if |rules[n].labels| > 1 then n else n + 1;
    forall j, k | 0 <= j < k < |tails|
      ensures Before(tails[j].labels, tails[k].labels)
    {
      assert Before(rules[skip + j].labels, rules[skip + k].labels);
    }
  }

  /** What the whole list, up to the end of the group, says about the group's label and about any other. */
  lemma GroupOnly(rules: seq<Rule<nat>>, n: nat, i: nat, a: Name)
    requires Ordered(rules) && Apart(rules, n) && Group(rules, n, i, a)
    ensures Tails(rules[..i], a) == Tails(rules[n..i], a)
    ensures RuleFor(rules[..i], [a]) == if |rules[n].labels| == 1 then Some(rules[n]) else None
    ensures forall b :: b != a ==> Tails(rules[..i], b) == Tails(rules[..n], b) && RuleFor(rules[..i], [b]) == RuleFor(rules[..n], [b])
  {
    var old', new' := rules[..n], rules[n..i];
    assert rules[..i] == old' + new';
    assert Lacks(old', a) by {
      forall k | 0 <= k < n ensures old'[k].labels != [] && old'[k].labels[0] != a { assert rules[k].labels[0] != rules[n].labels[0]; }
    }
    LackingNothing(old', a);
    TailsSplit(old', new', a);
    RuleForSplit(old', new', [a]);
    GroupBare(rules, n, i, a);
    forall b | b != a
      ensures Tails(rules[..i], b) == Tails(old', b) && RuleFor(rules[..i], [b]) == RuleFor(old', [b])
    {
      GroupLacks(rules, n, i, a, b);
      LackingNothing(new', b);
      TailsSplit(old', new', b);
      RuleForSplit(old', new', [b]);
    }
  }

  lemma {:induction false} GroupBare(rules: seq<Rule<nat>>, n: nat, i: nat, a: Name)
    requires Ordered(rules) && Group(rules, n, i, a)
    ensures RuleFor(rules[n..i], [a]) == if |rules[n].labels| == 1 then Some(rules[n]) else None
    decreases i
  {
    assert rules[n..i][..i - 1 - n] == rules[n..i - 1];
    if n + 1 < i {
      GroupBare(rules, n, i - 1, a);
      BareFirst(rules, n, i - 1);
    } else {
      assert rules[n..i - 1] == [];
      assert |rules[n].labels| == 1 ==> rules[n].labels == [a];
    }
  }

  // ---- names by their first label ----

  lemma {:induction false} LabelEndAt(s: Name, i: nat)
    requires i <= |s| && (forall k :: 0 <= k < i ==> s[k] != DOT) && (i < |s| ==> s[i] == DOT)
    ensures LabelEnd(s) == i
  {
  }

  /** The bytes compared by the source: the first label, with its dot if there is one. */
  function Compared(s: Name): nat {
    if LabelEnd(s) < |s| then LabelEnd(s) + 1 else LabelEnd(s)
  }

  /** t starts like s up to the first dot of s; without a dot in s, the label must end there in t as well. */
  ghost predicate SameHead(s: Name, t: Name) {
    && Compared(s) <= |t| && t[..Compared(s)] == s[..Compared(s)]
    && !(LabelEnd(s) == |s| && |t| > Compared(s) && t[Compared(s)] != DOT)
  }

  lemma SameHeadMeans(s: Name, t: Name)
    requires SameHead(s, t)
    ensures LabelEnd(t) == LabelEnd(s) && t[..LabelEnd(s)] == s[..LabelEnd(s)]
  {
    var e := LabelEnd(s);
    forall k | 0 <= k < e ensures t[k] == s[k] { assert t[k] == t[..Compared(s)][k] == s[..Compared(s)][k]; }
    if e < |s| { assert t[e] == t[..Compared(s)][e] == s[..Compared(s)][e]; }
    LabelEndAt(t, e);
  }

  lemma SameHeadIf(s: Name, t: Name)
    requires LabelEnd(t) == LabelEnd(s) && t[..LabelEnd(s)] == s[..LabelEnd(s)] && LabelEnd(s) + 1 < |t|
    ensures SameHead(s, t)
  {
    var e := LabelEnd(s);
    forall k | 0 <= k < Compared(s) ensures t[k] == s[k] { if k < e { assert t[k] == t[..e][k] == s[..e][k]; } }
  }

  /** Within an ordered list the test of the source finds exactly the names with the same first label. */
  lemma SameHeadExact(names: seq<Wildcard<nat>>, n: nat, i: nat)
    requires n < i < |names| && Proper(names[n].data) && Proper(names[i].data) && Ordered(Rules(names))
    ensures SameHead(names[n].data, names[i].data) <==> Labels(names[i].data)[0] == Labels(names[n].data)[0]
    ensures SameHead(names[n].data, names[i].data) ==>
      var e := LabelEnd(names[n].data); LabelEnd(names[i].data) == e && e + 1 < |names[i].data|
  {
    hide Proper, SameHead, Labels, Ordered;
    var s, t := names[n].data, names[i].data;
    HeadOf(s);
    HeadOf(t);
    assert Rules(names)[n].labels == Labels(s) && Rules(names)[i].labels == Labels(t);
    if SameHead(s, t) { SameHeadMeans(s, t); }
    if Labels(t)[0] == Labels(s)[0] {
      BareFirst(Rules(names), n, i);
      assert LabelEnd(t) == |t[..LabelEnd(t)]| == |s[..LabelEnd(s)]| == LabelEnd(s);
      SameHeadIf(s, t);
    }
  }

  /** ngx_strncmp, for strings that a NUL ends: whether the first n bytes agree. */
  method SameStart(s: Name, t: Name, n: nat) returns (same: bool)
    requires n <= |s| && (forall k :: 0 <= k < |s| ==> s[k] != 0) && forall k :: 0 <= k < |t| ==> t[k] != 0
    ensures same <==> n <= |t| && t[..n] == s[..n]
  {
    var i := 0;
    while i < n
      invariant i <= n && i <= |t| && t[..i] == s[..i]
    {
      var c: Byte := if i < |t| then t[i] else 0;
      if s[i] != c {
        if i < |t| && n <= |t| { assert t[..n][i] != s[..n][i]; }
        return false;
      }
      i := i + 1;
    }
    return true;
  }

  /** The scan for the first dot. */
  method ScanLabel(s: Name) returns (len: nat)
    ensures len == LabelEnd(s)
  {
    len := 0;
    while len < |s| && s[len] != DOT
      invariant len <= |s| && forall k :: 0 <= k < len ==> s[k] != DOT
    {
      len := len + 1;
    }
    LabelEndAt(s, len);
  }

  // ---- one group ----

  ghost predicate AllProper(names: seq<Wildcard<nat>>) {
    forall i :: 0 <= i < |names| ==> Proper(names[i].data)
  }

  lemma RestRule(w: Wildcard<nat>)
    requires Proper(w.data) && LabelEnd(w.data) + 1 < |w.data|
    ensures var rest := Wildcard(w.data[LabelEnd(w.data) + 1..], w.value);
      Proper(rest.data) && |RuleOf(w).labels| > 1 && RuleOf(rest) == RuleOf(w).(labels := RuleOf(w).labels[1..])
  {
    HeadOf(w.data);
  }

  lemma RulesAppend(names: seq<Wildcard<nat>>, w: Wildcard<nat>)
    ensures Rules(names + [w]) == Rules(names) + [RuleOf(w)]
  {
  }

  lemma TailsNext(rules: seq<Rule<nat>>, n: nat, i: nat, a: Name)
    requires n <= i < |rules|
    ensures Tails(rules[n..i + 1], a) ==
      Tails(rules[n..i], a)
      + (if |rules[i].labels| > 1 && rules[i].labels[0] == a then [rules[i].(labels := rules[i].labels[1..])] else [])
  {
    assert rules[n..i + 1][..i - n] == rules[n..i];
  }

  /** What is gathered while the group n .. i is scanned. */
  ghost predicate Gathered(names: seq<Wildcard<nat>>, n: nat, i: nat, next: seq<Wildcard<nat>>) {
    && n < |names| && AllProper(next) && Group(Rules(names), n, i, names[n].data[..LabelEnd(names[n].data)])
    && Rules(next) == Tails(Rules(names)[n..i], names[n].data[..LabelEnd(names[n].data)])
  }

  lemma GatherFirst(names: seq<Wildcard<nat>>, n: nat, next: seq<Wildcard<nat>>)
    requires n < |names| && Proper(names[n].data)
    requires var len := LabelEnd(names[n].data);
      next == if len + 1 < |names[n].data| then [Wildcard(names[n].data[len + 1..], names[n].value)] else []
    ensures Gathered(names, n, n + 1, next)
  {
    hide Proper, Labels, Starred, Tails;
    var w, rules := names[n], Rules(names);
    var a := w.data[..LabelEnd(w.data)];
    HeadOf(w.data);
    NoTails(rules, n, a);
    TailsNext(rules, n, n, a);
    if LabelEnd(w.data) + 1 < |w.data| { RestRule(w); }
  }

  lemma GatherNext(names: seq<Wildcard<nat>>, n: nat, i: nat, next: seq<Wildcard<nat>>)
    requires Gathered(names, n, i, next) && i < |names| && Proper(names[i].data)
    requires var len := LabelEnd(names[n].data);
      LabelEnd(names[i].data) == len && len + 1 < |names[i].data| && names[i].data[..len] == names[n].data[..len]
    ensures Gathered(names, n, i + 1, next + [Wildcard(names[i].data[LabelEnd(names[n].data) + 1..], names[i].value)])
  {
    hide Proper, Labels, Starred, Tails;
    var w := names[i];
    HeadOf(w.data);
    RestRule(w);
    RulesAppend(next, Wildcard(w.data[LabelEnd(w.data) + 1..], w.value));
    TailsNext(Rules(names), n, i, names[n].data[..LabelEnd(names[n].data)]);
  }

  /** The names of one group, and what is left of them behind the first label. */
  method Gather(names: seq<Wildcard<nat>>, n: nat, len: nat) returns (i: nat, next: seq<Wildcard<nat>>)
    requires n < |names| && AllProper(names) && Ordered(Rules(names)) && len == LabelEnd(names[n].data)
    ensures Gathered(names, n, i, next)
    ensures n < i <= |names| && (i < |names| ==> Labels(names[i].data)[0] != names[n].data[..len])
  {
    hide Proper, Labels, Starred, SameHead, Ordered, Gathered, Rules;
    var name := names[n].data;
    var dot := len < |name|;
    var compared := if dot then len + 1 else len;
    HeadOf(name);
    next := [];
    if compared != |name| {
      next := [Wildcard(name[compared..], names[n].value)];
    }
    GatherFirst(names, n, next);
    i := n + 1;
    while i < |names|
      invariant n < i <= |names| && Gathered(names, n, i, next)
    {
      SameHeadExact(names, n, i);
      HeadOf(names[i].data);
      NoNul(name);
      NoNul(names[i].data);
      HeadTest(name, names[i].data);
      var same := SameStart(name, names[i].data, compared);
      if !same {
        break;
      }
      if !dot && |names[i].data| > len && names[i].data[len] != DOT {
        break;
      }
      GatherNext(names, n, i, next);
      next := next + [Wildcard(names[i].data[len + 1..], names[i].value)];
      i := i + 1;
    }
  }

  lemma NoTails(rules: seq<Rule<nat>>, n: nat, a: Name)
    requires n <= |rules|
    ensures Tails(rules[n..n], a) == []
  {
  }

  lemma NoNul(s: Name)
    requires Proper(s)
    ensures forall k :: 0 <= k < |s| ==> s[k] != 0
  {
  }

  lemma HeadTest(s: Name, t: Name)
    ensures SameHead(s, t) <==>
      && Compared(s) <= |t| && t[..Compared(s)] == s[..Compared(s)]
      && !(LabelEnd(s) == |s| && |t| > LabelEnd(s) && t[LabelEnd(s)] != DOT)
  {
  }
}
