/** Wildcard names as rules, and the naive search for the longest rule that matches. */
module HashRules {
  import opened HashLayout

  const DOT: Byte := 0x2e

  /** *.example.com is (com, example) with a star; .example.com is (com, example) without: it matches example.com too. */
  datatype Rule<V> = Rule(labels: seq<Name>, star: bool, value: V)

  // ---- the names: labels from the right, as ngx_hash_add_key writes them ----

  /** An element of dns_wc_head: "com.example." for *.example.com and "com.example" for .example.com */
  datatype Wildcard<V> = Wildcard(data: Name, value: V)

  /** Where the first label ends: at the first dot, or at the end. */
  function LabelEnd(s: Name): (i: nat)
    ensures i <= |s| && (i < |s| ==> s[i] == DOT) && forall k :: 0 <= k < i ==> s[k] != DOT
  {
    if s == [] || s[0] == DOT then 0 else 1 + LabelEnd(s[1..])
  }

  /** Labels are not empty, and no byte is NUL. */
  ghost predicate Proper(s: Name)
    decreases |s|
  {
    var i := LabelEnd(s);
    && i > 0 && (forall k :: 0 <= k < |s| ==> s[k] != 0) && Lower(s) == s
    && (i + 1 < |s| ==> Proper(s[i + 1..]))
  }

  ghost function Labels(s: Name): (r: seq<Name>)
    ensures r != []
    decreases |s|
  {
    var i := LabelEnd(s);
    if i + 1 < |s| then [s[..i]] + Labels(s[i + 1..]) else [s[..i]]
  }

  ghost predicate Starred(s: Name)
    decreases |s|
  {
    var i := LabelEnd(s);
    if i + 1 < |s| then Starred(s[i + 1..]) else i < |s|
  }

  /** Labels with dots between them. */
  function Dotted(labels: seq<Name>): Name {
    if labels == [] then [] else if |labels| == 1 then labels[0] else labels[0] + [DOT] + Dotted(labels[1..])
  }

  ghost predicate IsLabel(s: Name) {
    s != [] && DOT !in s
  }

  lemma HeadOf(s: Name)
    requires Proper(s)
    ensures var i := LabelEnd(s);
      && Labels(s)[0] == s[..i] && (|Labels(s)| == 1 <==> i + 1 >= |s|)
      && (i + 1 < |s| ==> Labels(s) == [s[..i]] + Labels(s[i + 1..]) && Starred(s) == Starred(s[i + 1..]) && Proper(s[i + 1..]))
      && (i + 1 >= |s| ==> Labels(s) == [s[..i]] && (Starred(s) <==> i < |s|))
  {
  }

  lemma DottedMore(a: Name, labels: seq<Name>)
    requires labels != []
    ensures Dotted([a] + labels) == a + [DOT] + Dotted(labels)
  {
    assert ([a] + labels)[1..] == labels;
  }

  lemma CutAtDot(s: Name, i: nat)
    requires i <= |s| && (i < |s| ==> s[i] == DOT) && forall k :: 0 <= k < i ==> s[k] != DOT
    ensures DOT !in s[..i]
    ensures i + 1 < |s| ==> s == s[..i] + [DOT] + s[i + 1..]
    ensures i + 1 == |s| ==> s == s[..i] + [DOT]
    ensures i == |s| ==> s == s[..i]
  {
    forall c | c in s[..i] ensures c != DOT {
      var k :| 0 <= k < i && s[..i][k] == c;
    }
  }

  lemma HeadNotEmpty(s: Name)
    requires Proper(s)
    ensures LabelEnd(s) > 0
  {
    hide Lower;
  }

  lemma HeadLabel(s: Name)
    requires Proper(s)
    ensures IsLabel(s[..LabelEnd(s)])
    ensures LabelEnd(s) + 1 < |s| ==> s == s[..LabelEnd(s)] + [DOT] + s[LabelEnd(s) + 1..]
    ensures LabelEnd(s) + 1 == |s| ==> s == s[..LabelEnd(s)] + [DOT]
    ensures LabelEnd(s) == |s| ==> s == s[..LabelEnd(s)]
  {
    hide Proper, LabelEnd;
    HeadNotEmpty(s);
    CutAtDot(s, LabelEnd(s));
  }

  /** The labels are the parts of the name between the dots; a star stands for a dot at the end. */
  lemma {:induction false} LabelsMakeName(s: Name)
    requires Proper(s)
    ensures Dotted(Labels(s)) + (if Starred(s) then [DOT] else []) == s
    ensures forall i :: 0 <= i < |Labels(s)| ==> IsLabel(Labels(s)[i])
    decreases |s|
  {
    hide Proper, Labels, Starred, LabelEnd, Dotted, IsLabel;
    HeadOf(s);
    HeadLabel(s);
    var a := s[..LabelEnd(s)];
    if LabelEnd(s) + 1 < |s| {
      var rest := s[LabelEnd(s) + 1..];
      LabelsMakeName(rest);
      DottedMore(a, Labels(rest));
      var star := if Starred(rest) then [DOT] else [];
      assert a + [DOT] + Dotted(Labels(rest)) + star == a + [DOT] + (Dotted(Labels(rest)) + star);
    } else {
      OneLabel(a);
    }
  }

  lemma OneLabel(a: Name)
    ensures Dotted([a]) == a
  {
  }

  ghost function RuleOf<V>(w: Wildcard<V>): (r: Rule<V>)
    ensures r.labels != []
  {
    Rule(Labels(w.data), Starred(w.data), w.value)
  }

  ghost function Rules<V>(names: seq<Wildcard<V>>): (r: seq<Rule<V>>)
    ensures |r| == |names| && forall i :: 0 <= i < |names| ==> r[i] == RuleOf(names[i])
  {
    seq(|names|, i requires 0 <= i < |names| => RuleOf(names[i]))
  }

  // ---- the order the names come in ----

  /** The byte order on labels. */
  ghost predicate Less(s: Name, t: Name) {
    t != [] && (s == [] || s[0] < t[0] || (s[0] == t[0] && Less(s[1..], t[1..])))
  }

  lemma {:induction false} LessOneWay(s: Name, t: Name)
    requires Less(s, t)
    ensures !Less(t, s)
  {
    if s != [] && s[0] == t[0] { LessOneWay(s[1..], t[1..]); }
  }

  /** Label by label; a list of labels comes before its extensions. */
  ghost predicate Before(a: seq<Name>, b: seq<Name>) {
    b != [] && (a == [] || (if a[0] == b[0] then Before(a[1..], b[1..]) else Less(a[0], b[0])))
  }

  /** Sorted, and free of conflicts: no two rules have the same labels. */
  ghost predicate Ordered<V>(rules: seq<Rule<V>>) {
    && (forall i :: 0 <= i < |rules| ==> rules[i].labels != [])
    && (forall i, j :: 0 <= i < j < |rules| ==> Before(rules[i].labels, rules[j].labels))
  }

  // ---- rules below a label ----

  /** The rules that go on after the label a, without it. */
  ghost function Tails<V>(rules: seq<Rule<V>>, a: Name): seq<Rule<V>> {
    if rules == [] then []
    else
      var last := rules[|rules| - 1];
      var before := Tails(rules[..|rules| - 1], a);
      if |last.labels| > 1 && last.labels[0] == a then before + [last.(labels := last.labels[1..])] else before
  }

  /** The rule with exactly the given labels. */
  ghost function RuleFor<V>(rules: seq<Rule<V>>, labels: seq<Name>): Option<Rule<V>> {
    if rules == [] then None
    else
      var before := RuleFor(rules[..|rules| - 1], labels);
      if before.Some? then before
      else if rules[|rules| - 1].labels == labels then Some(rules[|rules| - 1]) else None
  }

  ghost function Weight<V>(rules: seq<Rule<V>>): nat {
    if rules == [] then 0 else Weight(rules[..|rules| - 1]) + |rules[|rules| - 1].labels|
  }

  lemma {:induction false} TailsLighter<V>(rules: seq<Rule<V>>, a: Name)
    ensures Weight(Tails(rules, a)) + |Tails(rules, a)| <= Weight(rules)
    decreases |rules|
  {
    if rules != [] {
      var k := |rules| - 1;
      TailsLighter(rules[..k], a);
      var before := Tails(rules[..k], a);
      if |rules[k].labels| > 1 && rules[k].labels[0] == a {
        var tail := rules[k].(labels := rules[k].labels[1..]);
        assert (before + [tail])[..|before|] == before;
      }
    }
  }

  // ---- the naive search ----

  /**
   The rule for the most labels of the query, among its first k: a rule with a star needs at least one label more
   than its own.
   */
  ghost function Naive<V>(rules: seq<Rule<V>>, query: seq<Name>, k: nat): Option<V>
    requires k <= |query|
  {
    if k == 0 then None
    else
      var rule := RuleFor(rules, query[..k]);
      if rule.Some? && !(rule.value.star && k == |query|) then Some(rule.value.value) else Naive(rules, query, k - 1)
  }

  /** *.example.com matches www.example.com and a.www.example.com; .example.com matches example.com as well. */
  ghost predicate Matches<V>(rule: Rule<V>, query: seq<Name>) {
    rule.labels <= query && (rule.star ==> |rule.labels| < |query|)
  }

  lemma {:induction false} RuleForFinds<V>(rules: seq<Rule<V>>, labels: seq<Name>) returns (i: nat)
    ensures RuleFor(rules, labels) == None ==> forall j :: 0 <= j < |rules| ==> rules[j].labels != labels
    ensures RuleFor(rules, labels).Some? ==> i < |rules| && rules[i] == RuleFor(rules, labels).value && rules[i].labels == labels
    decreases |rules|
  {
    i := 0;
    if rules != [] {
      var k := |rules| - 1;
      i := RuleForFinds(rules[..k], labels);
      if RuleFor(rules[..k], labels) == None {
        i := k;
        forall j | 0 <= j < |rules| && rules[j].labels == labels ensures j == k {}
      }
    }
  }

  lemma {:induction false} BeforeNotItself(a: seq<Name>)
    ensures !Before(a, a)
  {
    if a != [] { BeforeNotItself(a[1..]); }
  }

  /** Different rules have different labels. */
  lemma LabelsTell<V>(rules: seq<Rule<V>>, i: nat, j: nat)
    requires Ordered(rules) && i < |rules| && j < |rules| && i != j
    ensures rules[i].labels != rules[j].labels
  {
    BeforeNotItself(rules[i].labels);
    assert if i < j then Before(rules[i].labels, rules[j].labels) else Before(rules[j].labels, rules[i].labels);
  }

  /** The search finds a rule that matches, with the most labels of all that match; it finds none only if none matches. */
  lemma {:induction false} NaiveIsLongest<V>(rules: seq<Rule<V>>, query: seq<Name>, k: nat) returns (i: nat)
    requires Ordered(rules) && k <= |query|
    ensures Naive(rules, query, k) == None ==> forall j :: 0 <= j < |rules| && |rules[j].labels| <= k ==> !Matches(rules[j], query)
    ensures Naive(rules, query, k).Some? ==>
      && i < |rules| && Matches(rules[i], query) && Naive(rules, query, k) == Some(rules[i].value)
      && forall j :: 0 <= j < |rules| && |rules[j].labels| <= k && Matches(rules[j], query) ==> |rules[j].labels| <= |rules[i].labels|
    decreases k
  {
    i := 0;
    if k > 0 {
      i := RuleForFinds(rules, query[..k]);
      var rule := RuleFor(rules, query[..k]);
      if !(rule.Some? && !(rule.value.star && k == |query|)) {
        forall j | 0 <= j < |rules| && |rules[j].labels| == k ensures !Matches(rules[j], query) {
          if rules[j].labels <= query {
            assert rules[j].labels == query[..k];
            if i != j { LabelsTell(rules, i, j); }
          }
        }
        i := NaiveIsLongest(rules, query, k - 1);
      }
    }
  }

  ghost function OrElse<V>(a: Option<V>, b: Option<V>): Option<V> {
    if a.Some? then a else b
  }

  /** A rule for more labels is a rule below the first one. */
  lemma {:induction false} RuleBelow<V>(rules: seq<Rule<V>>, a: Name, more: seq<Name>)
    requires more != []
    ensures RuleFor(rules, [a] + more).Some? <==> RuleFor(Tails(rules, a), more).Some?
    ensures RuleFor(rules, [a] + more).Some? ==>
      RuleFor(rules, [a] + more).value == RuleFor(Tails(rules, a), more).value.(labels := [a] + more)
    decreases |rules|
  {
    if rules != [] {
      var k := |rules| - 1;
      var last, before := rules[k], Tails(rules[..k], a);
      RuleBelow(rules[..k], a, more);
      assert last.labels == [a] + more ==> last.labels[1..] == more;
      if |last.labels| > 1 && last.labels[0] == a {
        var tail := last.(labels := last.labels[1..]);
        assert (before + [tail])[..|before|] == before;
        assert last.labels == [a] + last.labels[1..];
      }
    }
  }

  /** The search, one label at a time. */
  lemma {:induction false} NaiveStep<V>(rules: seq<Rule<V>>, query: seq<Name>, k: nat)
    requires 1 <= k <= |query|
    ensures var a, rest, bare := query[0], query[1..], RuleFor(rules, [query[0]]);
      Naive(rules, query, k) ==
        OrElse(Naive(Tails(rules, a), rest, k - 1),
               if bare.Some? && !(bare.value.star && |query| == 1) then Some(bare.value.value) else None)
    decreases k
  {
    var a, rest := query[0], query[1..];
    if k == 1 {
      assert query[..1] == [a];
    } else {
      NaiveStep(rules, query, k - 1);
      assert query[..k] == [a] + rest[..k - 1];
      RuleBelow(rules, a, rest[..k - 1]);
    }
  }
}
