/** The layout that ngx_slab_init computes and the state it leaves. */
module SlabStart {
  import opened SlabList
  import opened SlabView
  import opened SlabRegions

  /** The bytes of a page header and of the counters of a slot, with 64-bit words. */
  const HEADER_BYTES := 24
  const STAT_BYTES := 32

  /** As many pages as fit with their headers into what the slot heads and counters leave. */
  function RawPages(base: nat, end: nat): nat
    requires base + SLOTS * (HEADER_BYTES + STAT_BYTES) <= end
  {
    (end - base - SLOTS * (HEADER_BYTES + STAT_BYTES)) / (PAGE + HEADER_BYTES)
  }

  /** The next multiple of the page size. */
  function AlignToPage(p: nat): nat {
    (p + PAGE - 1) / PAGE * PAGE
  }

  function PagesStart(base: nat, end: nat): nat
    requires base + SLOTS * (HEADER_BYTES + STAT_BYTES) <= end
  {
    AlignToPage(base + SLOTS * (HEADER_BYTES + STAT_BYTES) + RawPages(base, end) * HEADER_BYTES)
  }

  lemma AlignBound(p: nat)
    ensures p <= AlignToPage(p) < p + PAGE && AlignToPage(p) % PAGE == 0
  {
  }

  /** The pages fit behind their headers, except that the alignment may cost the last one. */
  lemma RoomForPages(base: nat, end: nat)
    requires base + SLOTS * (HEADER_BYTES + STAT_BYTES) <= end && 0 < RawPages(base, end)
    ensures PagesStart(base, end) <= end && PagesStart(base, end) % PAGE == 0 && base < PagesStart(base, end)
    ensures RawPages(base, end) - 1 <= (end - PagesStart(base, end)) / PAGE
  {
    var n := RawPages(base, end);
    var p := base + SLOTS * (HEADER_BYTES + STAT_BYTES);
    AlignBound(p + n * HEADER_BYTES);
    assert n * (PAGE + HEADER_BYTES) <= end - p;
    Quotient(end - PagesStart(base, end), n - 1);
  }

  lemma Quotient(room: nat, n: nat)
    requires n * PAGE <= room
    ensures n <= room / PAGE
  {
  }

  /** One free run of all pages and empty slot lists. */
  ghost predicate Fresh(v: View) {
    var n := |v.kind|;
    && 0 < n < START - 1 && |v.hdr| == n + 1 + SLOTS && |v.words| == n * PAGE_WORDS && v.pfree == n
    && |v.stats| == SLOTS && (forall s :: 0 <= s < SLOTS ==> v.stats[s] == Stat(0, 0, 0, 0))
    && v.free == [0] && |v.slots| == SLOTS && (forall s :: 0 <= s < SLOTS ==> v.slots[s] == [])
    && v.kind[0] == FreeHead(n) && (forall i :: 0 < i < n ==> v.kind[i] == FreeBody(0))
    && v.hdr[0] == Header(n, n, n, TAG_PAGE) && v.hdr[n].next == 0
    && (forall i :: 0 < i < n ==> v.hdr[i] == Header(0, NULL, NULL, TAG_PAGE))
    && (forall i :: n < i < n + 1 + SLOTS ==> v.hdr[i].next == i)
  }

  lemma FreshHeaders(v: View)
    requires Fresh(v)
    ensures Headers(v)
  {
    forall i | 0 <= i < |v.kind|
      ensures Tile(v.kind, i)
    {
    }
    forall i | 0 <= i < |v.kind|
      ensures PageHeader(v.hdr[i], v.kind, v.words, i)
    {
      assert Tile(v.kind, i);
    }
  }

  lemma FreshLists(v: View)
    requires Fresh(v)
    ensures Lists(v)
  {
    var n := |v.kind|;
    assert Fwd(v.hdr, n, [0], -1) && Fwd(v.hdr, n, [0], 0) && Back(v.hdr, n, [0], 0);
    assert FreeList(v) by {
      forall i | 0 <= i < n
        ensures i in v.free <==> v.kind[i].FreeHead?
      {
      }
    }
    forall s | 0 <= s < SLOTS
      ensures SlotList(v, s)
    {
      assert v.slots[s] == [];
      assert Fwd(v.hdr, SlotRef(v, s), [], -1);
    }
  }

  lemma {:induction false} NothingWeighs(kind: seq<Kind>, m: Measure)
    requires forall i :: 0 <= i < |kind| ==> Weight(kind[i], m) == 0
    ensures Sum(kind, m) == 0
  {
    if kind != [] {
      assert Weight(kind[0], m) == 0;
      assert forall i :: 0 <= i < |kind[1..]| ==> kind[1..][i] == kind[i + 1];
      NothingWeighs(kind[1..], m);
    }
  }

  /** The pool starts out as one free run, with nothing handed out. */
  lemma FreshInv(v: View)
    requires Fresh(v)
    ensures Inv(v) && forall r :: !Live(v.kind, r)
  {
    FreshHeaders(v);
    FreshLists(v);
    OneRunSum(v.kind);
    forall s | 0 <= s < SLOTS
      ensures v.stats[s].used == Sum(v.kind, Used(s)) && v.stats[s].total == Sum(v.kind, Total(s))
    {
      NothingWeighs(v.kind, Used(s));
      NothingWeighs(v.kind, Total(s));
    }
  }
}
