/** The order that ngx_dns_strcmp sorts wildcard names into is the order on their labels. */
module HashOrder {
  import opened HashLayout
  import opened HashRules

  /** '.' counts as the lowest character of a name. */
  function Place(c: Byte): Byte {
    if c == DOT then 0x20 else c
  }

  /** ngx_dns_strcmp(s, t) < 0, for names in lower case */
  ghost predicate DnsLess(s: Name, t: Name) {
    t != [] && (s == [] || if s[0] == t[0] then DnsLess(s[1..], t[1..]) else Place(s[0]) < Place(t[0]))
  }

  /** No blank or control character, so that nothing else is in the place of the dot. */
  ghost predicate Plain(s: Name) {
    forall i :: 0 <= i < |s| ==> s[i] > 0x20
  }

  lemma {:induction false} DnsTotal(s: Name, t: Name)
    requires Plain(s) && Plain(t) && s != t && !DnsLess(t, s)
    ensures DnsLess(s, t)
  {
    if s != [] && t != [] && s[0] == t[0] {
      assert s == [s[0]] + s[1..] && t == [t[0]] + t[1..];
      DnsTotal(s[1..], t[1..]);
    }
  }

  function Head(s: Name): Name {
    s[..LabelEnd(s)]
  }

  lemma HeadTail(s: Name)
    requires s != [] && s[0] != DOT
    ensures Head(s) == [s[0]] + Head(s[1..]) && LabelEnd(s) == 1 + LabelEnd(s[1..])
  {
    assert s[..LabelEnd(s)] == [s[0]] + s[1..][..LabelEnd(s[1..])];
  }

  /** Different first labels decide. */
  lemma {:induction false} HeadsDecide(s: Name, t: Name)
    requires Plain(s) && Plain(t) && DnsLess(s, t) && Head(s) != Head(t)
    ensures Less(Head(s), Head(t))
  {
    if s != [] && s[0] != DOT {
      HeadTail(s);
      HeadTail(t);
      if s[0] == t[0] { HeadsDecide(s[1..], t[1..]); }
    }
  }

  /** Behind a common first label the rest decides. */
  lemma {:induction false} RestDecides(s: Name, t: Name)
    requires DnsLess(s, t) && Head(s) == Head(t)
    ensures DnsLess(s[LabelEnd(s)..], t[LabelEnd(t)..])
  {
    if s != [] && s[0] != DOT && t[0] != DOT {
      HeadTail(s);
      HeadTail(t);
      assert Head(s)[0] == s[0] && Head(t)[0] == t[0] && Head(s)[1..] == Head(s[1..]) && Head(t)[1..] == Head(t[1..]);
      RestDecides(s[1..], t[1..]);
      assert s[LabelEnd(s)..] == s[1..][LabelEnd(s[1..])..] && t[LabelEnd(t)..] == t[1..][LabelEnd(t[1..])..];
    } else {
      assert |Head(s)| == |Head(t)|;
    }
  }

  lemma {:induction false} DnsBefore(s: Name, t: Name)
    requires Proper(s) && Proper(t) && Plain(s) && Plain(t) && DnsLess(s, t) && Labels(s) != Labels(t)
    ensures Before(Labels(s), Labels(t))
    decreases |s|
  {
    if Head(s) != Head(t) {
      HeadsDecide(s, t);
    } else {
      RestDecides(s, t);
      var i, j := LabelEnd(s), LabelEnd(t);
      assert |Head(s)| == i && |Head(t)| == j;
      if i + 1 < |s| {
        assert s[i..][0] == DOT && s[i..][1..] == s[i + 1..];
        assert t[j..] != [] && t[j..][0] == DOT && t[j..][1..] == t[j + 1..];
        DnsBefore(s[i + 1..], t[j + 1..]);
      }
    }
  }

  /** Names sorted with ngx_dns_strcmp, no two of them with the same labels, make an ordered list of rules. */
  lemma SortedIsOrdered<V>(names: seq<Wildcard<V>>)
    requires forall i :: 0 <= i < |names| ==> Proper(names[i].data) && Plain(names[i].data)
    requires forall i, j :: 0 <= i < j < |names| ==> !DnsLess(names[j].data, names[i].data)
    requires forall i, j :: 0 <= i < j < |names| ==> Labels(names[i].data) != Labels(names[j].data)
    ensures Ordered(Rules(names))
  {
    forall i, j | 0 <= i < j < |names|
      ensures Before(Labels(names[i].data), Labels(names[j].data))
    {
      DnsTotal(names[i].data, names[j].data);
      DnsBefore(names[i].data, names[j].data);
    }
  }
}
