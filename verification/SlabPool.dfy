/** The slab pool itself: ngx_slab_pool_t and the functions of ngx_slab.c that work on it in place. */
module SlabPool {
  import opened Words
  import opened SlabList
  import opened SlabView
  import opened SlabAlloc
  import opened SlabFree
  import opened SlabJoin
  import opened SlabBits
  import opened SlabChunks
  import opened SlabRegions
  import opened SlabGrant
  import opened SlabServe
  import opened SlabReturn
  import opened SlabStart

  /** The headers of a new pool: all pages in one free run, every slot list empty. */
  method FreshTable(pages: nat) returns (h: array<Header>)
    requires 0 < pages
    ensures fresh(h) && h.Length == pages + 1 + SLOTS
    ensures h[0] == Header(pages, pages, pages, TAG_PAGE) && h[pages].next == 0
    ensures forall j :: 0 < j < pages ==> h[j] == Header(0, NULL, NULL, TAG_PAGE)
    ensures forall j :: pages < j < pages + 1 + SLOTS ==> h[j].next == j
  {
    h := new Header[pages + 1 + SLOTS](_ => Header(0, NULL, NULL, TAG_PAGE));
    var i := 0;
    while i < SLOTS
      invariant i <= SLOTS
      invariant forall j :: 0 <= j <= pages ==> h[j] == Header(0, NULL, NULL, TAG_PAGE)
      invariant forall j :: pages < j < pages + 1 + i ==> h[j].next == j
    {
      h[pages + 1 + i] := Header(0, pages + 1 + i, NULL, TAG_PAGE);
      i := i + 1;
    }
    h[pages] := Header(0, 0, NULL, TAG_PAGE);
    h[0] := Header(pages, pages, pages, TAG_PAGE);
  }

  class Pool {
    // the pages, then the free-list head, then the slot heads
    const hdr: array<Header>
    // the memory of the pages as machine words, for the bitmaps that small-class pages hold
    const words: array<nat>
    const stats: array<Stat>
    const last: nat
    const start: nat
    const end: nat
    var pfree: int

    ghost var kind: seq<Kind>
    ghost var free: seq<int>
    ghost var slots: seq<seq<int>>

    ghost function Snap(): View
      reads this, hdr, words, stats
    {
      View(hdr[..], words[..], pfree, stats[..], kind, free, slots)
    }

    ghost predicate Placed()
      reads this
    {
      |kind| == last && start % PAGE == 0 && 0 < start && start + last * PAGE <= end
    }

    ghost predicate Valid()
      reads this, hdr, words, stats
    {
      Placed() && Inv(Snap())
    }

    /** ngx_slab_init; `base` is the address of the slot heads, right behind the pool structure. */
    constructor (base: nat, end: nat)
      requires base + SLOTS * (HEADER_BYTES + STAT_BYTES) <= end < START && 0 < RawPages(base, end)
      requires PagesStart(base, end) + PAGE <= end
      ensures Valid() && forall r :: !Live(kind, r)
      ensures fresh(hdr) && fresh(words) && fresh(stats)
      ensures this.end == end && start == PagesStart(base, end) && RawPages(base, end) - 1 <= last <= RawPages(base, end)
      ensures base + 9 * (24 + 32) + last * 24 <= start && end - start < (last + 2) * PAGE
    {
      var p := base;
      var size := end - p;
      p := p + SLOTS * HEADER_BYTES;
      p := p + SLOTS * STAT_BYTES;
      size := size - SLOTS * (HEADER_BYTES + STAT_BYTES);
      var pages := size / (PAGE + HEADER_BYTES);
      var first := AlignToPage(p + pages * HEADER_BYTES);
      RoomForPages(base, end);
      var m := pages - (end - first) / PAGE;
      if m > 0 {
        pages := pages - m;
      }
      start, this.end, last, pfree := first, end, pages, pages;
      words := new nat[pages * PAGE_WORDS];
      stats := new Stat[SLOTS](_ => Stat(0, 0, 0, 0));
      var table := FreshTable(pages);
      hdr := table;
      kind := seq(pages, i => if i == 0 then FreeHead(pages) else FreeBody(0));
      free, slots := [0], seq(SLOTS, _ => []);
      new;
      FreshInv(Snap());
    }

    // ---- single writes ----

    method SetNext(i: int, r: int)
      requires 0 <= i < hdr.Length
      modifies hdr
      ensures hdr[..] == WithNext(old(hdr[..]), i, r)
    {
      hdr[i] := hdr[i].(next := r);
    }

    method SetPrev(i: int, r: int, tag: nat)
      requires 0 <= i < hdr.Length
      modifies hdr
      ensures hdr[..] == WithPrev(old(hdr[..]), i, r, tag)
    {
      hdr[i] := hdr[i].(prev := r, tag := tag);
    }

    method SetSlab(i: int, w: nat)
      requires 0 <= i < hdr.Length
      modifies hdr
      ensures hdr[..] == WithSlab(old(hdr[..]), i, w)
    {
      hdr[i] := hdr[i].(slab := w);
    }

    method SetHeader(i: int, h: Header)
      requires 0 <= i < hdr.Length
      modifies hdr
      ensures hdr[..] == old(hdr[..])[i := h]
    {
      hdr[i] := h;
    }

    method SetWord(i: nat, w: nat)
      requires i < words.Length
      modifies words
      ensures words[..] == old(words[..])[i := w]
    {
      words[i] := w;
    }

    method Record(slot: nat, total: int, used: int)
      requires slot < stats.Length
      modifies stats
      ensures stats[..] == Counted(old(stats[..]), slot, total, used)
    {
      stats[slot] := stats[slot].(total := stats[slot].total + total, used := stats[slot].used + used);
    }

    /** The page leaves its list; the type bits of the link it had go to its neighbour with it. */
    method Unlink(x: int)
      requires 0 <= x < hdr.Length && 0 <= hdr[x].prev < hdr.Length && 0 <= hdr[x].next < hdr.Length && hdr[x].prev != x
      modifies hdr
      ensures hdr[..] == Unlinked(old(hdr[..]), x)
    {
      SetNext(hdr[x].prev, hdr[x].next);
      SetPrev(hdr[x].next, hdr[x].prev, hdr[x].tag);
    }

    // ---- ngx_slab_alloc_pages ----

    /** The inner pages of a multi-page allocation are marked. */
    method FillBusy(from: nat, to: nat)
      requires from <= to <= hdr.Length
      modifies hdr
      ensures Busied(old(hdr[..]), hdr[..], from, to)
    {
      var p := from;
      while p < to
        invariant from <= p <= to
        invariant forall i :: 0 <= i < hdr.Length ==>
          hdr[i] == if from <= i < p then Header(BUSY, NULL, NULL, TAG_PAGE) else old(hdr[..])[i]
      {
        hdr[p] := Header(BUSY, NULL, NULL, TAG_PAGE);
        p := p + 1;
      }
    }

    method SplitRun(x: nat, len: nat, pages: nat)
      requires 0 < pages < len && x + len <= hdr.Length
      requires 0 <= hdr[x].prev < hdr.Length && 0 <= hdr[x].next < hdr.Length && hdr[x].prev != x && hdr[x].next != x
      modifies hdr
      ensures hdr[..] == Split(old(hdr[..]), x, len, pages)
    {
      SetPrev(x + len - 1, x + pages, TAG_PAGE);
      SetSlab(x + pages, len - pages);
      SetNext(x + pages, hdr[x].next);
      SetPrev(x + pages, hdr[x].prev, hdr[x].tag);
      SetNext(hdr[x].prev, x + pages);
      SetPrev(hdr[x].next, x + pages, TAG_PAGE);
    }

    /** The page links are in range and lead elsewhere. */
    ghost predicate Linked(x: int)
      reads hdr
    {
      && 0 <= x < hdr.Length && 0 <= hdr[x].prev < hdr.Length && 0 <= hdr[x].next < hdr.Length
      && hdr[x].prev != x && hdr[x].next != x
    }

    method TakeRun(x: nat, len: nat, pages: nat)
      requires Linked(x) && 0 < pages <= len && x + len <= hdr.Length
      modifies this`pfree, hdr
      ensures pages < len ==> Busied(Claimed(Split(old(hdr[..]), x, len, pages), x, pages), hdr[..], x + 1, x + pages)
      ensures pages == len ==> Busied(Claimed(Unlinked(old(hdr[..]), x), x, len), hdr[..], x + 1, x + pages)
      ensures pfree == old(pfree) - pages
    {
      if len > pages {
        SplitRun(x, len, pages);
      } else {
        Unlink(x);
      }
      SetHeader(x, Header(pages + START, NULL, NULL, TAG_PAGE));
      pfree := pfree - pages;
      FillBusy(x + 1, x + pages);
    }

    /** The free run at x, number k on the list, gives its first `pages` pages. */
    method TakeListed(x: nat, pages: nat, ghost k: nat)
      requires Valid() && k < |free| && free[k] == x && x < hdr.Length && 0 < pages <= hdr[x].slab
      modifies this, hdr
      ensures Valid() && slots == old(slots)
      ensures 0 < pages <= old(hdr[x].slab) && kind == Taken(old(kind), x, old(hdr[x].slab), pages)
      ensures free == TakenFree(old(free), k, x, old(hdr[x].slab), pages)
    {
      ghost var v := Snap();
      FreeRun(v, k);
      var len := hdr[x].slab;
      TakeRun(x, len, pages);
      RunTaken(v, hdr[..], k, len, pages);
      kind, free := Taken(kind, x, len, pages), TakenFree(free, k, x, len, pages);
      assert Snap() == AfterAlloc(v, hdr[..], k, len, pages);
    }

    /** ngx_slab_alloc_pages: the first free run that is long enough gives its first pages. */
    method AllocPages(pages: nat) returns (page: int, ghost k: nat)
      requires Valid() && 0 < pages
      modifies this, hdr
      ensures Valid() && slots == old(slots)
      ensures page == NULL <==> !HasRun(old(kind), pages)
      ensures page == NULL ==> Snap() == old(Snap())
      ensures page != NULL ==>
        && 0 <= page < last && k < |old(free)| && old(free)[k] == page && old(kind)[page].FreeHead?
        && (forall i :: 0 <= i < k ==> 0 <= old(free)[i] < last && old(kind)[old(free)[i]].FreeHead? && old(kind)[old(free)[i]].len < pages)
        && pages <= old(kind)[page].len && kind == Taken(old(kind), page, old(kind)[page].len, pages)
      ensures page != NULL ==> Gained(old(kind), kind, Pages(page, pages))
    {
      page := hdr[last].next;
      k := 0;
      assert Fwd(hdr[..], last, free, -1);
      while page != last
        invariant Snap() == old(Snap())
        invariant k <= |free| && page == At(last, free, k)
        invariant forall i :: 0 <= i < k ==> 0 <= free[i] < |kind| && kind[free[i]].FreeHead? && kind[free[i]].len < pages
        decreases |free| - k
      {
        FreeRun(Snap(), k);
        if hdr[page].slab >= pages {
          LiveTaken(kind, page, hdr[page].slab, pages);
          TakeListed(page, pages, k);
          return;
        }
        assert Fwd(hdr[..], last, free, k);
        page := hdr[page].next;
        k := k + 1;
      }
      NoRun(Snap(), pages);
      page := NULL;
    }

    // ---- ngx_slab_free_pages ----

    /** The headers of the inner pages are zeroed. */
    method Zero(from: nat, to: nat)
      requires from <= to <= hdr.Length
      modifies hdr
      ensures Zeroed(old(hdr[..]), hdr[..], from, to)
    {
      var p := from;
      while p < to
        invariant from <= p <= to
        invariant forall i :: 0 <= i < hdr.Length ==>
          hdr[i] == if from <= i < p then Header(0, NULL, NULL, TAG_PAGE) else old(hdr[..])[i]
      {
        hdr[p] := Header(0, NULL, NULL, TAG_PAGE);
        p := p + 1;
      }
    }

    method Release(x: nat, pages: nat)
      requires 0 < pages && x + pages <= hdr.Length && (hdr[x].next != NULL ==> pages == 1 && Linked(x))
      modifies this`pfree, hdr
      ensures pfree == old(pfree) + pages
      ensures old(hdr[x].next) == NULL ==> Zeroed(WithSlab(old(hdr[..]), x, pages), hdr[..], x + 1, x + pages)
      ensures old(hdr[x].next) != NULL ==> hdr[..] == Unlinked(WithSlab(old(hdr[..]), x, 1), x)
    {
      pfree := pfree + pages;
      SetSlab(x, pages);
      if pages > 1 {
        Zero(x + 1, x + pages);
      }
      if hdr[x].next != NULL {
        Unlink(x);
      }
    }

    /** The pages at x stop being an allocation or an idle slab page. */
    method Loosen(x: nat, pages: nat)
      requires Placed() && Releasable(Snap(), x, pages)
      modifies this, hdr
      ensures Placed() && Loosened(Snap(), x, pages) && Released(old(kind), kind, x)
    {
      ghost var v := Snap();
      ghost var k := Releasing(v, x, pages);
      Release(x, pages);
      ghost var v' := LoosenStep(v, hdr[..], x, pages);
      kind, slots := v'.kind, v'.slots;
      assert Snap() == v';
    }

    method AbsorbNext(x: nat) returns (more: nat)
      requires NextReady(hdr[..], x, last)
      modifies hdr
      ensures hdr[..] == NextJoined(old(hdr[..]), x, last) && more == NextSlab(old(hdr[..]), x, last)
    {
      more := 0;
      var join := x + hdr[x].slab;
      if join < last {
        if hdr[join].tag == TAG_PAGE {
          if hdr[join].next != NULL {
            more := hdr[join].slab;
            SetSlab(x, hdr[x].slab + hdr[join].slab);
            Unlink(join);
            SetHeader(join, Header(0, NULL, NULL, TAG_PAGE));
          }
        }
      }
    }

    method JoinNextTo(x: nat, ghost v': View) returns (more: nat)
      requires NextReady(hdr[..], x, last) && v' == Snap().(hdr := NextJoined(hdr[..], x, last), kind := v'.kind, free := v'.free)
      modifies this, hdr
      ensures Snap() == v' && more == NextSlab(old(hdr[..]), x, last)
    {
      more := AbsorbNext(x);
      kind, free := v'.kind, v'.free;
      assert Snap() == v';
    }

    /** The run behind the loose run joins it if it is free. */
    method JoinNext(x: nat, ghost len: nat) returns (more: nat)
      requires Placed() && Loosened(Snap(), x, len)
      modifies this, hdr
      ensures Placed() && Loosened(Snap(), x, len + more) && RightClear(kind, x, len + more) && Carried(old(kind), kind)
    {
      ghost var v' := NextStep(Snap(), x, len);
      more := JoinNextTo(x, v');
    }

    method AbsorbPrev(x: nat) returns (page: nat, more: nat)
      requires PrevReady(hdr[..], x)
      modifies hdr
      ensures hdr[..] == PrevJoined(old(hdr[..]), x)
      ensures page == PrevHead(old(hdr[..]), x) && more == PrevSlab(old(hdr[..]), x)
    {
      page, more := x, 0;
      if x > 0 {
        var join: int := x - 1;
        if hdr[join].tag == TAG_PAGE {
          if hdr[join].slab == 0 {
            join := hdr[join].prev;
          }
          if hdr[join].next != NULL {
            more := hdr[join].slab;
            SetSlab(join, hdr[join].slab + hdr[x].slab);
            Unlink(join);
            SetHeader(x, Header(0, NULL, NULL, TAG_PAGE));
            page := join;
          }
        }
      }
    }

    method JoinPrevTo(x: nat, ghost v': View) returns (page: nat, more: nat)
      requires PrevReady(hdr[..], x) && v' == Snap().(hdr := PrevJoined(hdr[..], x), kind := v'.kind, free := v'.free)
      modifies this, hdr
      ensures Snap() == v' && page == PrevHead(old(hdr[..]), x) && more == PrevSlab(old(hdr[..]), x)
    {
      page, more := AbsorbPrev(x);
      kind, free := v'.kind, v'.free;
      assert Snap() == v';
    }

    /** The loose run joins the run before it if that is free; the last page of a free run leads to its head. */
    method JoinPrev(x: nat, ghost len: nat) returns (page: nat, more: nat)
      requires Placed() && Loosened(Snap(), x, len) && RightClear(kind, x, len)
      modifies this, hdr
      ensures Placed() && Loosened(Snap(), page, more + len) && RightClear(kind, page, more + len) && LeftClear(kind, page)
      ensures Carried(old(kind), kind)
    {
      ghost var v' := PrevStep(Snap(), x, len);
      page, more := JoinPrevTo(x, v');
    }

    /** A page becomes the first element of a list. */
    method Push(head: int, x: int, tag: nat)
      requires 0 <= head < hdr.Length && 0 <= x < hdr.Length && x != head && 0 <= hdr[head].next < hdr.Length
      modifies hdr
      ensures hdr[..] == Pushed(old(hdr[..]), head, x, tag)
    {
      var first := hdr[head].next;
      SetNext(x, first);
      SetPrev(x, head, tag);
      SetPrev(first, x, tag);
      SetNext(head, x);
    }

    /** `pages` counts the pages of the run after its first one. */
    method PutFirst(page: nat, pages: nat)
      requires page + pages < last < hdr.Length && 0 <= hdr[last].next < hdr.Length
      modifies hdr
      ensures hdr[..] == Pushed(Marked(old(hdr[..]), page, pages + 1), last, page, TAG_PAGE)
    {
      if pages > 0 {
        SetPrev(page + pages, page, TAG_PAGE);
      }
      Push(last, page, TAG_PAGE);
    }

    method Settle(page: nat, pages: nat)
      requires Placed() && Loosened(Snap(), page, pages + 1) && RightClear(kind, page, pages + 1) && LeftClear(kind, page)
      modifies this, hdr
      ensures Placed() && Rested(Snap()) && Carried(old(kind), kind)
    {
      ghost var v' := SettleStep(Snap(), page, pages + 1);
      PutFirst(page, pages);
      kind, free := v'.kind, v'.free;
      assert Snap() == v';
    }

    /** ngx_slab_free_pages */
    method FreePages(page: nat, pages: nat)
      requires Placed() && Releasable(Snap(), page, pages)
      modifies this, hdr
      ensures Placed() && Rested(Snap()) && Released(old(kind), kind, page)
    {
      Loosen(page, pages);
      var more := JoinNext(page, pages);
      var x, evenMore := JoinPrev(page, pages + more);
      LooseHere(Snap(), x, pages + more + evenMore);
      Settle(x, pages - 1 + more + evenMore);
    }

    // ---- ngx_slab_alloc_locked: a page with a free chunk ----

    /** The lowest clear bit below n, or n. */
    method FreeBit(w: nat, n: nat) returns (i: nat)
      ensures i <= n && (i < n ==> !Bit(w, i)) && forall j :: 0 <= j < i ==> Bit(w, j)
    {
      i := 0;
      while i < n && Bit(w, i)
        invariant i <= n && forall j :: 0 <= j < i ==> Bit(w, j)
      {
        i := i + 1;
      }
    }

    /** The lowest clear bit of the upper half, or n. */
    method FreeMapBit(w: nat, n: nat) returns (i: nat)
      ensures i <= n && (i < n ==> !MapBit(w, i)) && forall j :: 0 <= j < i ==> MapBit(w, j)
    {
      i := 0;
      while i < n && MapBit(w, i)
        invariant i <= n && forall j :: 0 <= j < i ==> MapBit(w, j)
      {
        i := i + 1;
      }
    }

    /** The lowest clear bit of an in-page bitmap. */
    method FindSmall(base: nat, n: nat) returns (found: bool, c: nat)
      requires base + n <= words.Length && forall k :: base <= k < base + n ==> Fits(words[k], WORD)
      ensures found <==> !AllBusy(words[..], base, n)
      ensures found ==> c / WORD < n && !ChunkBit(words[..], base, c)
      ensures found ==> forall d :: 0 <= d < c && base + d / WORD < words.Length ==> ChunkBit(words[..], base, d)
    {
      BusyWord();
      found, c := false, 0;
      var q := 0;
      while q < n
        invariant q <= n && forall k :: base <= k < base + q ==> words[k] == BUSY
      {
        if words[base + q] != BUSY {
          var i := FreeBit(words[base + q], WORD);
          FullIsOnes(words[base + q], WORD);
          if i < WORD {
            found, c := true, q * WORD + i;
            WordIndex(q, i);
            BitsBefore(words[..], base, q, i, words[base + q]);
            return;
          }
        }
        q := q + 1;
      }
    }

    method BusyFrom(base: nat, from: nat, n: nat) returns (busy: bool)
      requires from <= n && base + n <= words.Length
      ensures busy <==> forall k :: base + from <= k < base + n ==> words[k] == BUSY
    {
      var q := from;
      while q < n
        invariant from <= q <= n && forall k :: base + from <= k < base + q ==> words[k] == BUSY
      {
        if words[base + q] != BUSY {
          return false;
        }
        q := q + 1;
      }
      return true;
    }

    /** The page leaves its list for good and keeps only its type. */
    method Detach(page: nat, tag: nat)
      requires Loops(hdr[..], page)
      modifies hdr
      ensures hdr[..] == Detached(old(hdr[..]), page, tag)
    {
      Unlink(page);
      SetNext(page, NULL);
      SetPrev(page, NULL, tag);
    }

    method MarkSmall(page: nat, n: nat) returns (found: bool, c: nat)
      requires Loops(hdr[..], page) && page * PAGE_WORDS + n <= words.Length
      requires forall k :: page * PAGE_WORDS <= k < page * PAGE_WORDS + n ==> Fits(words[k], WORD)
      modifies hdr, words
      ensures found <==> !AllBusy(old(words[..]), page * PAGE_WORDS, n)
      ensures found ==> c / WORD < n && !ChunkBit(old(words[..]), page * PAGE_WORDS, c)
      ensures found ==> forall d :: 0 <= d < c && page * PAGE_WORDS + d / WORD < words.Length ==>
        ChunkBit(old(words[..]), page * PAGE_WORDS, d)
      ensures found ==> words[..] == ChunkSet(old(words[..]), page * PAGE_WORDS, c)
      ensures found ==> hdr[..] == if AllBusy(words[..], page * PAGE_WORDS, n) then Detached(old(hdr[..]), page, TAG_SMALL) else old(hdr[..])
    {
      var base := page * PAGE_WORDS;
      found, c := FindSmall(base, n);
      if found {
        LowerBusy(words[..], base, n, c);
        SetWord(base + c / WORD, Set(words[base + c / WORD], c % WORD));
        if words[base + c / WORD] == BUSY {
          var rest := BusyFrom(base, c / WORD + 1, n);
          if rest {
            Detach(page, TAG_SMALL);
          }
        }
      }
    }

    method MarkExact(page: nat) returns (found: bool, c: nat)
      requires Loops(hdr[..], page)
      modifies hdr
      ensures !found ==> forall d :: 0 <= d < WORD ==> Bit(old(hdr[page].slab), d)
      ensures found ==> c < WORD && !Bit(old(hdr[page].slab), c) && forall d :: 0 <= d < c ==> Bit(old(hdr[page].slab), d)
      ensures found ==> var w := Set(old(hdr[page].slab), c); hdr[..] == ServedHeaders(old(hdr[..]), page, w, w == BUSY, TAG_EXACT)
    {
      c := FreeBit(hdr[page].slab, WORD);
      found := c < WORD;
      if found {
        SetSlab(page, Set(hdr[page].slab, c));
        if hdr[page].slab == BUSY {
          Detach(page, TAG_EXACT);
        }
      }
    }

    method MarkBig(page: nat, n: nat) returns (found: bool, c: nat)
      requires Loops(hdr[..], page)
      modifies hdr
      ensures !found ==> forall d :: 0 <= d < n ==> MapBit(old(hdr[page].slab), d)
      ensures found ==> c < n && !MapBit(old(hdr[page].slab), c) && forall d :: 0 <= d < c ==> MapBit(old(hdr[page].slab), d)
      ensures found ==> var w := Set(old(hdr[page].slab), MAP_SHIFT + c);
        hdr[..] == ServedHeaders(old(hdr[..]), page, w, Shr(w, MAP_SHIFT) == Ones(n), TAG_BIG)
    {
      c := FreeMapBit(hdr[page].slab, n);
      found := c < n;
      if found {
        SetSlab(page, Set(hdr[page].slab, MAP_SHIFT + c));
        if Shr(hdr[page].slab, MAP_SHIFT) == Ones(n) {
          Detach(page, TAG_BIG);
        }
      }
    }

    method ServeSmall(page: nat, slot: nat) returns (c: nat)
      requires Placed() && Serving(Snap(), page, slot) && slot + MIN_SHIFT < EXACT_SHIFT
      modifies this, hdr, words, stats
      ensures Placed() && Handed(old(Snap()), Snap(), page, slot, c)
    {
      ghost var v := Snap();
      SmallReady(v, page, slot);
      var found;
      found, c := MarkSmall(page, MapWords(slot + MIN_SHIFT));
      if !found {
        assert false; // ngx_slab_alloc(): page is busy
      }
      ghost var v' := SmallServed(v, page, slot, c);
      Record(slot, 0, 1);
      kind, slots := v'.kind, v'.slots;
      assert Snap() == v';
    }

    method ServeExact(page: nat, slot: nat) returns (c: nat)
      requires Placed() && Serving(Snap(), page, slot) && slot + MIN_SHIFT == EXACT_SHIFT
      modifies this, hdr, stats
      ensures Placed() && Handed(old(Snap()), Snap(), page, slot, c)
    {
      ghost var v := Snap();
      ExactNotBusy(v, page, slot);
      var found;
      found, c := MarkExact(page);
      if !found {
        assert false; // ngx_slab_alloc(): page is busy
      }
      ghost var v' := ExactServed(v, page, slot, c);
      Record(slot, 0, 1);
      kind, slots := v'.kind, v'.slots;
      assert Snap() == v';
    }

    method ServeBig(page: nat, slot: nat) returns (c: nat)
      requires Placed() && Serving(Snap(), page, slot) && slot + MIN_SHIFT > EXACT_SHIFT
      modifies this, hdr, stats
      ensures Placed() && Handed(old(Snap()), Snap(), page, slot, c)
    {
      ghost var v := Snap();
      BigNotBusy(v, page, slot);
      var found;
      found, c := MarkBig(page, Count(slot + MIN_SHIFT));
      if !found {
        assert false; // ngx_slab_alloc(): page is busy
      }
      ghost var v' := BigServed(v, page, slot, c);
      Record(slot, 0, 1);
      kind, slots := v'.kind, v'.slots;
      assert Snap() == v';
    }

    method ServeListed(page: nat, slot: nat) returns (c: nat)
      requires Placed() && Serving(Snap(), page, slot)
      modifies this, hdr, words, stats
      ensures Placed() && Handed(old(Snap()), Snap(), page, slot, c)
    {
      var shift := slot + MIN_SHIFT;
      if shift < EXACT_SHIFT {
        c := ServeSmall(page, slot);
      } else if shift == EXACT_SHIFT {
        c := ServeExact(page, slot);
      } else {
        c := ServeBig(page, slot);
      }
    }

    // ---- ngx_slab_alloc_locked: a fresh page ----

    method Enlist(page: nat, slot: nat, slab: nat, tag: nat)
      requires page < hdr.Length && slot < hdr.Length
      modifies hdr
      ensures hdr[..] == Enlisted(old(hdr[..]), page, slot, slab, tag)
    {
      SetHeader(page, Header(slab, slot, slot, tag));
      SetNext(slot, page);
    }

    /** The bits of the chunks that hold the bitmap, and of the first chunk after them */
    method StartBitmap(base: nat, n: nat, reserved: nat)
      requires 0 < n && base + n <= words.Length
      modifies words
      ensures forall k :: 0 <= k < words.Length ==>
        words[k] == if k == base then Ones(reserved + 1) else if base < k < base + n then 0 else old(words[..])[k]
    {
      words[base] := Ones(reserved + 1);
      var i := 1;
      while i < n
        invariant 1 <= i <= n
        invariant forall k :: 0 <= k < words.Length ==>
          words[k] == if k == base then Ones(reserved + 1) else if base < k < base + i then 0 else old(words[..])[k]
      {
        words[base + i] := 0;
        i := i + 1;
      }
    }

    method OpenSmallPage(page: nat, slot: nat)
      requires Valid() && slot < SLOTS && slots[slot] == [] && page < |kind| && kind[page] == RunHead(1) && slot + MIN_SHIFT < EXACT_SHIFT
      modifies this, hdr, words, stats
      ensures Placed() && Opened(old(Snap()), Snap(), page, slot)
    {
      ghost var v := Snap();
      var shift := slot + MIN_SHIFT;
      SmallRoom(v, page, slot);
      StartBitmap(page * PAGE_WORDS, MapWords(shift), Reserved(shift));
      ghost var v' := OpenSmall(v, words[..], page, slot);
      Enlist(page, last + 1 + slot, shift, TAG_SMALL);
      Record(slot, Count(shift) - Reserved(shift), 1);
      kind, slots := v'.kind, v'.slots;
      assert Snap() == v';
    }

    method OpenBigPage(page: nat, slot: nat)
      requires Valid() && slot < SLOTS && slots[slot] == [] && page < |kind| && kind[page] == RunHead(1) && slot + MIN_SHIFT >= EXACT_SHIFT
      modifies this, hdr, stats
      ensures Placed() && Opened(old(Snap()), Snap(), page, slot) && Reserved(slot + MIN_SHIFT) == 0
    {
      ghost var v := Snap();
      var shift := slot + MIN_SHIFT;
      ghost var v' := OpenBig(v, page, slot);
      if shift == EXACT_SHIFT {
        Enlist(page, last + 1 + slot, 1, TAG_EXACT);
      } else {
        Enlist(page, last + 1 + slot, Join(1, shift, MAP_SHIFT), TAG_BIG);
      }
      Record(slot, Count(shift), 1);
      kind, slots := v'.kind, v'.slots;
      assert Snap() == v';
    }

    /** The chunk of a fresh page that the caller gets: the first one after the bitmap. */
    method OpenPage(page: nat, slot: nat) returns (c: nat)
      requires Valid() && slot < SLOTS && slots[slot] == [] && page < |kind| && kind[page] == RunHead(1)
      modifies this, hdr, words, stats
      ensures Placed() && Opened(old(Snap()), Snap(), page, slot) && c == Reserved(slot + MIN_SHIFT)
    {
      if slot + MIN_SHIFT < EXACT_SHIFT {
        OpenSmallPage(page, slot);
        c := Reserved(slot + MIN_SHIFT);
      } else {
        OpenBigPage(page, slot);
        c := 0;
      }
    }

    // ---- ngx_slab_alloc_locked ----

    /** The class of a request: size - 1 is halved until nothing is left. */
    method ShiftFor(size: nat) returns (shift: nat)
      requires size <= MAX_SIZE
      ensures ClassOf(size, shift)
    {
      ShiftTable(MIN_SHIFT);
      shift := MIN_SHIFT;
      if size > Size(MIN_SHIFT) {
        shift := 1;
        var s := (size - 1) / 2;
        while s > 0
          invariant 1 <= shift && s == Shr(size - 1, shift) && Shr(size - 1, shift - 1) != 0
          decreases s
        {
          ShrNext(size - 1, shift);
          s := s / 2;
          shift := shift + 1;
        }
        ClassFound(size, shift);
      }
    }

    method CountRequest(slot: nat)
      requires Valid() && slot < SLOTS
      modifies stats
      ensures Valid() && Snap() == old(Snap()).(stats := Requested(old(stats[..]), slot))
    {
      RequestedInv(Snap(), slot, Requested(stats[..], slot));
      stats[slot] := stats[slot].(reqs := stats[slot].reqs + 1);
      assert Snap() == old(Snap()).(stats := Requested(old(stats[..]), slot));
    }

    method CountFailure(slot: nat)
      requires Valid() && slot < SLOTS
      modifies stats
      ensures Valid() && Snap() == old(Snap()).(stats := Refused(old(stats[..]), slot))
    {
      RequestedInv(Snap(), slot, Refused(stats[..], slot));
      stats[slot] := stats[slot].(fails := stats[slot].fails + 1);
      assert Snap() == old(Snap()).(stats := Refused(old(stats[..]), slot));
    }

    /** A page is taken from the first free run and cut for the slot. */
    method AllocFresh(slot: nat) returns (p: nat, ghost r: Region)
      requires Valid() && slot < SLOTS && slots[slot] == []
      modifies this, hdr, words, stats
      ensures Valid()
      ensures p == 0 <==> !HasRun(old(kind), 1)
      ensures p == 0 ==> Snap() == old(Snap()).(stats := stats[..])
      ensures p != 0 ==> p == Addr(start, r) && Gained(old(kind), kind, r) && r.Chunk? && r.shift == slot + MIN_SHIFT
      ensures p != 0 ==> OnlyBitmap(kind, r.x, old(words[..]), words[..])
      ensures |old(stats[..])| == |stats[..]| == SLOTS
      ensures forall t :: 0 <= t < SLOTS ==>
        stats[t].reqs == old(stats[..])[t].reqs && stats[t].fails == old(stats[..])[t].fails + (if t == slot && p == 0 then 1 else 0)
    {
      var page;
      ghost var k;
      page, k := AllocPages(1);
      if page != NULL {
        OpenedGains(old(kind), kind, page, slot);
        var c := OpenPage(page, slot);
        p, r := start + page * PAGE + Join(c, 0, slot + MIN_SHIFT), Chunk(page, slot + MIN_SHIFT, c);
      } else {
        p, r := 0, Pages(0, 0);
        CountFailure(slot);
      }
    }

    /** A small request: the lowest free chunk of the first page on the slot's list, or a fresh page. */
    method AllocChunk(slot: nat) returns (p: nat, ghost r: Region)
      requires Valid() && slot < SLOTS
      modifies this, hdr, words, stats
      ensures Valid()
      ensures p == 0 <==> !HasRun(old(kind), 1) && !HasPartial(old(kind), slot)
      ensures p == 0 ==> Snap() == old(Snap()).(stats := stats[..])
      ensures p != 0 ==> p == Addr(start, r) && Gained(old(kind), kind, r) && r.Chunk? && r.shift == slot + MIN_SHIFT
      ensures p != 0 ==> OnlyBitmap(kind, r.x, old(words[..]), words[..])
      ensures p != 0 && old(slots)[slot] != [] ==>
        r.x == old(slots)[slot][0] && r.x < |old(kind)| && Lowest(old(kind)[r.x], r.c)
      ensures SlotRequest(old(stats[..]), stats[..], slot, p == 0)
    {
      CountRequest(slot);
      FirstOrNone(Snap(), slot);
      var page := hdr[last + 1 + slot].next;
      if hdr[page].next != page {
        var c := ServeListed(page, slot);
        p, r := start + page * PAGE + Join(c, 0, slot + MIN_SHIFT), Chunk(page, slot + MIN_SHIFT, c);
      } else {
        p, r := AllocFresh(slot);
      }
    }

    /** ngx_slab_alloc_locked; 0 stands for NULL */
    method Alloc(size: nat) returns (p: nat, ghost r: Region)
      requires Valid()
      modifies this, hdr, words, stats
      ensures Valid()
      ensures p == 0 <==> !CanServe(old(kind), size)
      ensures p == 0 ==> Snap() == old(Snap()).(stats := stats[..])
      ensures p != 0 ==> p == Addr(start, r) && Gained(old(kind), kind, r) && Serves(r, size)
      ensures p != 0 ==> Tight(r, size)
      ensures forall q :: Live(kind, q) ==> MemoryKept(q, old(words[..]), words[..])
      ensures RequestCounted(old(stats[..]), stats[..], size, p == 0)
    {
      if size > MAX_SIZE {
        PagesServe(0, size);
        var page;
        ghost var k;
        page, k := AllocPages(PagesFor(size));
        if page != NULL {
          PagesServe(page, size);
          ServesTight(Pages(page, PagesFor(size)), size);
          p, r := start + page * PAGE, Pages(page, PagesFor(size));
        } else {
          p, r := 0, Pages(0, 0);
        }
        return;
      }
      var shift := ShiftFor(size);
      var slot := shift - MIN_SHIFT;
      OneClass(kind, size, slot);
      p, r := AllocChunk(slot);
      if p != 0 {
        ChunkServes(r.x, shift, r.c, size);
        ServesTight(r, size);
        BitmapSparesRegions(kind, r.x, old(words[..]), words[..]);
      }
      CountedOnce(old(stats[..]), stats[..], size, slot, p == 0);
    }

    // ---- ngx_slab_free_locked ----

    /** All words of the bitmap are clear, except for the bits of the bitmap's own chunks. */
    method IdleSmall(base: nat, n: nat, reserved: nat) returns (idle: bool)
      requires base + n <= words.Length && 0 < n
      ensures idle <==> IdleWords(words[..], base, n, reserved)
    {
      if Shr(words[base], reserved) != 0 {
        return false;
      }
      var i := 1;
      while i < n
        invariant 1 <= i <= n && forall k :: base < k < base + i ==> words[k] == 0
      {
        if words[base + i] != 0 {
          return false;
        }
        i := i + 1;
      }
      return true;
    }

    method ClearSmall(page: nat, slot: nat, c: nat)
      requires page < last && page * PAGE_WORDS + c / WORD < words.Length
      requires last + 1 + slot < hdr.Length && 0 <= hdr[last + 1 + slot].next < hdr.Length
      modifies hdr, words
      ensures hdr[..] == if old(hdr[page].next) == NULL then Pushed(old(hdr[..]), last + 1 + slot, page, TAG_SMALL) else old(hdr[..])
      ensures words[..] == ChunkCleared(old(words[..]), page * PAGE_WORDS, c)
    {
      if hdr[page].next == NULL {
        Push(last + 1 + slot, page, TAG_SMALL);
      }
      var at := page * PAGE_WORDS + c / WORD;
      SetWord(at, Clear(words[at], c % WORD));
    }

    method ClearExact(page: nat, slot: nat, c: nat)
      requires page < last && last + 1 + slot < hdr.Length && 0 <= hdr[last + 1 + slot].next < hdr.Length
      modifies hdr
      ensures hdr[..] == GivenHeaders(old(hdr[..]), page, last + 1 + slot, Clear(old(hdr[page].slab), c), old(hdr[page].slab) == BUSY, TAG_EXACT)
    {
      var slab := hdr[page].slab;
      if slab == BUSY {
        Push(last + 1 + slot, page, TAG_EXACT);
      }
      SetSlab(page, Clear(slab, c));
    }

    method ClearBig(page: nat, slot: nat, c: nat)
      requires page < last && last + 1 + slot < hdr.Length && 0 <= hdr[last + 1 + slot].next < hdr.Length
      modifies hdr
      ensures hdr[..] == GivenHeaders(old(hdr[..]), page, last + 1 + slot, Clear(old(hdr[page].slab), MAP_SHIFT + c),
                                      old(hdr[page].next) == NULL, TAG_BIG)
    {
      var slab := hdr[page].slab;
      if hdr[page].next == NULL {
        Push(last + 1 + slot, page, TAG_BIG);
      }
      SetSlab(page, Clear(slab, MAP_SHIFT + c));
    }

    /** An idle page goes back; either way the slot counts one chunk less. */
    method Finish(page: nat, slot: nat, ghost c: nat, idle: bool, ghost v: View)
      requires Placed() && |kind| == |v.kind| && TakenBack(v, Snap(), page, slot, c) && (idle <==> kind[page].busy == {})
      modifies this, hdr, stats
      ensures Valid() && Lost(v.kind, kind, Chunk(page, slot + MIN_SHIFT, c))
    {
      ghost var v' := Snap();
      if idle {
        IdleReleasable(v, v', page, slot, c);
        FreePages(page, 1);
        ghost var w := Snap();
        GoneInv(v, v', w, page, slot, c);
        Record(slot, Reserved(slot + MIN_SHIFT) - Count(slot + MIN_SHIFT), 0);
        Record(slot, 0, -1);
        assert Snap() == w.(stats := stats[..]);
      } else {
        KeptInv(v, v', page, slot, c);
        Record(slot, 0, -1);
        assert Snap() == v'.(stats := stats[..]);
      }
    }

    method ReturnSmall(page: nat, slot: nat, c: nat) returns (idle: bool)
      requires Placed() && Giving(Snap(), page, slot, c) && slot + MIN_SHIFT < EXACT_SHIFT
      modifies this, hdr, words
      ensures Placed() && TakenBack(old(Snap()), Snap(), page, slot, c) && (idle <==> kind[page].busy == {})
    {
      ghost var v' := SmallReturned(Snap(), page, slot, c);
      ClearSmall(page, slot, c);
      kind, slots := v'.kind, v'.slots;
      assert Snap() == v';
      idle := IdleSmall(page * PAGE_WORDS, MapWords(slot + MIN_SHIFT), Reserved(slot + MIN_SHIFT));
    }

    method FreeSmall(page: nat, slot: nat, c: nat)
      requires Placed() && Giving(Snap(), page, slot, c) && slot + MIN_SHIFT < EXACT_SHIFT
      modifies this, hdr, words, stats
      ensures Valid() && Lost(old(kind), kind, Chunk(page, slot + MIN_SHIFT, c))
      ensures OnlyBitmap(old(kind), page, old(words[..]), words[..])
    {
      ghost var v := Snap();
      var idle := ReturnSmall(page, slot, c);
      Finish(page, slot, c, idle, v);
    }

    method FreeExact(page: nat, slot: nat, c: nat)
      requires Placed() && Giving(Snap(), page, slot, c) && slot + MIN_SHIFT == EXACT_SHIFT
      modifies this, hdr, stats
      ensures Valid() && Lost(old(kind), kind, Chunk(page, slot + MIN_SHIFT, c))
    {
      ghost var v := Snap();
      ghost var v' := ExactReturned(v, page, slot, c);
      ClearExact(page, slot, c);
      kind, slots := v'.kind, v'.slots;
      assert Snap() == v';
      Cleared(v.hdr, page, last + 1 + slot, Clear(v.hdr[page].slab, c), v.hdr[page].slab == BUSY, TAG_EXACT);
      Finish(page, slot, c, hdr[page].slab == 0, v);
    }

    method FreeBig(page: nat, slot: nat, c: nat)
      requires Placed() && Giving(Snap(), page, slot, c) && slot + MIN_SHIFT > EXACT_SHIFT
      modifies this, hdr, stats
      ensures Valid() && Lost(old(kind), kind, Chunk(page, slot + MIN_SHIFT, c))
    {
      ghost var v := Snap();
      ghost var v' := BigReturned(v, page, slot, c);
      ClearBig(page, slot, c);
      kind, slots := v'.kind, v'.slots;
      assert Snap() == v';
      Cleared(v.hdr, page, last + 1 + slot, Clear(v.hdr[page].slab, MAP_SHIFT + c), v.hdr[page].next == NULL, TAG_BIG);
      Finish(page, slot, c, Shr(hdr[page].slab, MAP_SHIFT) == 0, v);
    }

    method FreePageRun(page: nat, size: nat)
      requires Valid() && page < |kind| && kind[page] == RunHead(size)
      modifies this, hdr
      ensures Valid() && Lost(old(kind), kind, Pages(page, size))
    {
      ghost var v := Snap();
      RunReleasable(v, page);
      FreePages(page, size);
      RunGoneInv(v, Snap(), page, size);
    }

    /** The bit of a chunk that holds the bitmap itself is cleared like any other, and the slot counts one chunk less. */
    method FreeReserved(page: nat, slot: nat, ghost p: nat, c: nat)
      requires Valid() && start <= p && PageOf(start, p) == page && page < last && ReservedAt(kind, start, p)
      requires kind[page].shift == slot + MIN_SHIFT && c == Shr(p % PAGE, slot + MIN_SHIFT)
      modifies this, hdr, words, stats
      ensures Placed() && Spoiled(old(Snap()), Snap(), page, slot, c)
    {
      ghost var v := Snap();
      ReservedReady(v, start, p, slot);
      ClearSmall(page, slot, c);
      var idle := IdleSmall(page * PAGE_WORDS, MapWords(slot + MIN_SHIFT), Reserved(slot + MIN_SHIFT));
      if idle {
        assert false; // the page has a live chunk
      }
      Record(slot, 0, -1);
    }

    /** An address on a page of type NGX_SLAB_SMALL. */
    method FreeOnSmall(page: nat, p: nat) returns (o: Outcome)
      requires Valid() && start <= p && PageOf(start, p) == page && page < last && page < hdr.Length && hdr[page].tag == TAG_SMALL
      modifies this, hdr, words, stats
      ensures Placed()
      ensures !ReservedAt(old(kind), start, p) ==> Judged(old(Snap()), Snap(), page, p, o)
      ensures ReservedAt(old(kind), start, p) ==> o == Freed && SpoiledAt(old(Snap()), Snap(), start, p)
    {
      SmallPage(Snap(), start, page, p);
      var shift := Low(hdr[page].slab, 4);
      if Low(p, shift) != 0 {
        return WrongChunk;
      }
      var c := Shr(p % PAGE, shift);
      if ChunkBit(words[..], page * PAGE_WORDS, c) {
        if c < Reserved(shift) {
          FreeReserved(page, shift - MIN_SHIFT, p, c);
        } else {
          LiveGives(Snap(), page, shift - MIN_SHIFT, c);
          FreeSmall(page, shift - MIN_SHIFT, c);
        }
        return Freed;
      }
      return ChunkAlreadyFree;
    }

    /** An address on a page of type NGX_SLAB_EXACT. */
    method FreeOnExact(page: nat, p: nat) returns (o: Outcome)
      requires Valid() && start <= p && PageOf(start, p) == page && page < last && page < hdr.Length && hdr[page].tag == TAG_EXACT
      modifies this, hdr, words, stats
      ensures Placed() && Judged(old(Snap()), Snap(), page, p, o)
    {
      ExactPage(Snap(), start, page, p);
      var c := Shr(p % PAGE, EXACT_SHIFT);
      if Low(p, EXACT_SHIFT) != 0 {
        return WrongChunk;
      }
      if Bit(hdr[page].slab, c) {
        LiveGives(Snap(), page, EXACT_SHIFT - MIN_SHIFT, c);
        FreeExact(page, EXACT_SHIFT - MIN_SHIFT, c);
        return Freed;
      }
      return ChunkAlreadyFree;
    }

    /** An address on a page of type NGX_SLAB_BIG. */
    method FreeOnBig(page: nat, p: nat) returns (o: Outcome)
      requires Valid() && start <= p && PageOf(start, p) == page && page < last && page < hdr.Length && hdr[page].tag == TAG_BIG
      modifies this, hdr, words, stats
      ensures Placed() && Judged(old(Snap()), Snap(), page, p, o)
    {
      BigPage(Snap(), start, page, p);
      var shift := Low(hdr[page].slab, 4);
      if Low(p, shift) != 0 {
        return WrongChunk;
      }
      var c := Shr(p % PAGE, shift);
      if MapBit(hdr[page].slab, c) {
        LiveGives(Snap(), page, shift - MIN_SHIFT, c);
        FreeBig(page, shift - MIN_SHIFT, c);
        return Freed;
      }
      return ChunkAlreadyFree;
    }

    /** An address on a page of type NGX_SLAB_PAGE. */
    method FreeOnPage(page: nat, p: nat) returns (o: Outcome)
      requires Valid() && start <= p && PageOf(start, p) == page && page < last && page < hdr.Length && hdr[page].tag == TAG_PAGE
      modifies this, hdr
      ensures Placed() && Judged(old(Snap()), Snap(), page, p, o)
    {
      PlainPage(Snap(), page);
      if p % PAGE != 0 {
        return WrongChunk;
      }
      var slab := hdr[page].slab;
      if slab < START {
        return PageAlreadyFree;
      }
      if slab == BUSY {
        return WrongPage;
      }
      FreePageRun(page, slab - START);
      return Freed;
    }

    /**
     ngx_slab_free_locked. Besides the addresses of live regions it accepts those of the chunks that hold a bitmap, and
     only that spoils the pool. The bytes between the last page and the end of the pool have no page header: the source
     reads past the headers for an address there.
     */
    method Free(p: nat) returns (o: Outcome)
      requires Valid() && !(start + last * PAGE <= p <= end)
      modifies this, hdr, words, stats
      ensures o == Freed <==> LiveAt(old(kind), start, p) || ReservedAt(old(kind), start, p)
      ensures Valid() <==> !ReservedAt(old(kind), start, p)
      ensures ReservedAt(old(kind), start, p) ==> SpoiledAt(old(Snap()), Snap(), start, p)
      ensures LiveAt(old(kind), start, p) ==> forall r :: Live(old(kind), r) && Addr(start, r) == p ==> Lost(old(kind), kind, r)
      ensures o != Freed ==> Snap() == old(Snap())
      ensures o == OutsideOfPool <==> p < start || end < p
      ensures o != OutsideOfPool ==> start <= p && PageOf(start, p) < |old(kind)|
      ensures o != OutsideOfPool && !ReservedAt(old(kind), start, p) ==> o == Expected(old(kind), PageOf(start, p), p)
      ensures forall q :: Live(old(kind), q) ==> MemoryKept(q, old(words[..]), words[..])
    {
      if p < start || p > end {
        OutsideNotLive(kind, start, p);
        return OutsideOfPool;
      }
      InsidePage(start, last, p);
      var page := PageOf(start, p);
      ghost var v := Snap();
      AcceptedIsLive(kind, start, p);
      KnownTag(v, page);
      var tag := hdr[page].tag;
      if tag == TAG_SMALL {
        o := FreeOnSmall(page, p);
        if ReservedAt(v.kind, start, p) {
          ReservedNotLive(v.kind, start, p);
          SpoiledNotInv(v, Snap(), start, p);
        }
      } else {
        ReservedIsSmall(v, start, p);
        if tag == TAG_EXACT {
          o := FreeOnExact(page, p);
        } else if tag == TAG_BIG {
          o := FreeOnBig(page, p);
        } else {
          o := FreeOnPage(page, p);
        }
      }
      BitmapSparesRegions(v.kind, page, v.words, words[..]);
    }
  }

  /** After a request for 8 bytes the start of the chunk's page is an address that is accepted although nothing is live there. */
  method AcceptedThoughNotLive(pool: Pool) returns (served: bool, o: Outcome)
    requires pool.Valid()
    modifies pool, pool.hdr, pool.words, pool.stats
    ensures served <==> old(CanServe(pool.kind, 8))
    ensures served ==> o == Freed && !pool.Valid()
  {
    var p;
    ghost var r;
    p, r := pool.Alloc(8);
    if p == 0 {
      return false, OutsideOfPool;
    }
    SmallRequestReserves(pool.Snap(), pool.start, r, 8);
    LiveInside(pool.kind, pool.start, r);
    o := pool.Free(p - p % PAGE);
    return true, o;
  }
}
