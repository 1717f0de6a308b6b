/** What a slab pool looks like: page headers, bitmap words and counters, and what the pages are used for. */
module SlabView {
  import opened Words
  import opened SlabList

  const PAGE := 4096
  const PAGE_WORDS := 512
  const MIN_SHIFT := 3
  const EXACT_SHIFT := 6
  const MAX_SHIFT := 11
  const SLOTS := 9
  const MAP_SHIFT := 32
  const WORD := 64

  const START := 0x8000_0000_0000_0000
  const BUSY := 0xffff_ffff_ffff_ffff

  const TAG_PAGE := 0
  const TAG_BIG := 1
  const TAG_EXACT := 2
  const TAG_SMALL := 3

  /** The chunk size of a class. */
  function Size(shift: nat): (s: nat)
    ensures s > 0
  {
    if shift == 0 then 1 else 2 * Size(shift - 1)
  }

  /** Exactly the words of at most k bits are shifted out by k places. */
  lemma {:induction false} ShrZero(w: nat, k: nat)
    ensures Shr(w, k) == 0 <==> w < Size(k)
    decreases k
  {
    if k > 0 { ShrZero(w / 2, k - 1); }
  }

  /** Chunks a page is cut into. */
  function Count(shift: nat): nat {
    Shr(PAGE, shift)
  }

  /** Chunks of a small-class page that hold its own bitmap: one bit for each chunk, and at least one chunk. */
  function Reserved(shift: nat): nat {
    if shift >= EXACT_SHIFT then 0
    else
      var n := Shr(Count(shift), shift + 3);
      if n == 0 then 1 else n
  }

  function MapWords(shift: nat): nat {
    Count(shift) / WORD
  }

  function TagOf(shift: nat): nat {
    if shift < EXACT_SHIFT then TAG_SMALL else if shift == EXACT_SHIFT then TAG_EXACT else TAG_BIG
  }

  lemma ShiftTable(shift: nat)
    requires MIN_SHIFT <= shift <= MAX_SHIFT
    ensures shift == 3 ==> Size(shift) == 8 && Count(shift) == 512 && Reserved(shift) == 8 && MapWords(shift) == 8
    ensures shift == 4 ==> Size(shift) == 16 && Count(shift) == 256 && Reserved(shift) == 2 && MapWords(shift) == 4
    ensures shift == 5 ==> Size(shift) == 32 && Count(shift) == 128 && Reserved(shift) == 1 && MapWords(shift) == 2
    ensures shift == 6 ==> Size(shift) == 64 && Count(shift) == 64
    ensures shift == 7 ==> Size(shift) == 128 && Count(shift) == 32
    ensures shift == 8 ==> Size(shift) == 256 && Count(shift) == 16
    ensures shift == 9 ==> Size(shift) == 512 && Count(shift) == 8
    ensures shift == 10 ==> Size(shift) == 1024 && Count(shift) == 4
    ensures shift == 11 ==> Size(shift) == 2048 && Count(shift) == 2
    ensures shift >= 6 ==> Reserved(shift) == 0
    ensures Size(shift) * Count(shift) == PAGE && Reserved(shift) < Count(shift)
    ensures shift < EXACT_SHIFT ==> Count(shift) == WORD * MapWords(shift) && MapWords(shift) * 8 <= Reserved(shift) * Size(shift)
    ensures shift < EXACT_SHIFT ==> Reserved(shift) < WORD - 1
  {
    assert Size(3) == 8;
    assert Size(6) == 64;
    assert Size(9) == 512;
  }

  /**
   What a page is used for. A run is described at its first page; its other pages say where it starts. A loose run
   is one that ngx_slab_free_pages is working on: its pages are free but not yet on the free list. `busy` holds the
   numbers of the chunks handed out.
   */
  datatype Kind =
    | FreeHead(len: nat)
    | FreeBody(head: nat)
    | RunHead(len: nat)
    | RunBody(head: nat)
    | Loose(len: nat)
    | LooseBody(head: nat)
    | Chunks(shift: nat, busy: set<nat>)

  datatype Stat = Stat(total: int, used: int, reqs: int, fails: int)

  datatype View = View(
    hdr: seq<Header>,
    words: seq<nat>,
    pfree: int,
    stats: seq<Stat>,
    kind: seq<Kind>,
    free: seq<int>,
    slots: seq<seq<int>>)

  // ---- the partition of the pages ----

  /** The run of length `len` that starts at i consists of pages of kind `body`. */
  ghost predicate RunAt(kind: seq<Kind>, i: nat, len: nat, body: Kind) {
    0 < len && i + len <= |kind| && forall j :: i < j < i + len ==> kind[j] == body
  }

  ghost predicate Tile(kind: seq<Kind>, i: nat)
    requires i < |kind|
  {
    match kind[i]
    case FreeHead(len) => RunAt(kind, i, len, FreeBody(i))
    case RunHead(len) => RunAt(kind, i, len, RunBody(i))
    case Loose(len) => RunAt(kind, i, len, LooseBody(i))
    case FreeBody(h) => h < i && kind[h].FreeHead? && i < h + kind[h].len
    case RunBody(h) => h < i && kind[h].RunHead? && i < h + kind[h].len
    case LooseBody(h) => h < i && kind[h].Loose? && i < h + kind[h].len
    case Chunks(shift, busy) =>
      MIN_SHIFT <= shift <= MAX_SHIFT && forall c :: c in busy ==> Reserved(shift) <= c < Count(shift)
  }

  /** Every page belongs to exactly one free run, multi-page allocation or slab page. */
  ghost predicate Tiling(kind: seq<Kind>) {
    forall i :: 0 <= i < |kind| ==> Tile(kind, i)
  }

  /** A free run at i does not touch another one behind it. */
  ghost predicate Apart(kind: seq<Kind>, i: nat)
    requires i < |kind|
  {
    kind[i].FreeHead? && i + kind[i].len < |kind| ==> !kind[i + kind[i].len].FreeHead?
  }

  /** No two free runs touch. */
  ghost predicate Coalesced(kind: seq<Kind>) {
    forall i :: 0 <= i < |kind| ==> Apart(kind, i)
  }

  ghost predicate IsFull(k: Kind) {
    k.Chunks? && forall c :: Reserved(k.shift) <= c < Count(k.shift) ==> c in k.busy
  }

  /** A page that belongs on the list of slot s: it is cut for that slot and has a free chunk. */
  ghost predicate Partial(k: Kind, s: nat) {
    k.Chunks? && k.shift == s + MIN_SHIFT && !IsFull(k)
  }

  // ---- page headers and bitmaps ----

  /** The bit of chunk c in a bitmap that starts at word `base`. */
  predicate ChunkBit(words: seq<nat>, base: nat, c: nat)
    requires base + c / WORD < |words|
  {
    Bit(words[base + c / WORD], c % WORD)
  }

  ghost predicate SmallBits(words: seq<nat>, base: nat, shift: nat, busy: set<nat>) {
    && base + MapWords(shift) <= |words|
    && (forall c :: 0 <= c < Count(shift) && c / WORD < MapWords(shift) ==>
         (ChunkBit(words, base, c) <==> c < Reserved(shift) || c in busy))
    && (forall k :: base <= k < base + MapWords(shift) ==> Fits(words[k], WORD))
  }

  ghost predicate ExactBits(slab: nat, busy: set<nat>) {
    Fits(slab, WORD) && forall c :: 0 <= c < WORD ==> (Bit(slab, c) <==> c in busy)
  }

  /** The bit of chunk c in the upper half of the slab word. */
  predicate MapBit(slab: nat, c: nat) {
    Bit(slab, MAP_SHIFT + c)
  }

  ghost predicate BigBits(slab: nat, shift: nat, busy: set<nat>) {
    && Low(slab, MAP_SHIFT) == shift && Fits(Shr(slab, MAP_SHIFT), Count(shift))
    && forall c :: 0 <= c < Count(shift) ==> (MapBit(slab, c) <==> c in busy)
  }

  ghost predicate ChunkHeader(h: Header, words: seq<nat>, i: nat, k: Kind)
    requires k.Chunks?
  {
    && h.tag == TagOf(k.shift)
    && (IsFull(k) ==> h.next == NULL)
    && (if k.shift < EXACT_SHIFT then h.slab == k.shift && SmallBits(words, i * PAGE_WORDS, k.shift, k.busy)
        else if k.shift == EXACT_SHIFT then ExactBits(h.slab, k.busy)
        else BigBits(h.slab, k.shift, k.busy))
  }

  ghost predicate BodyHeader(h: Header, slab: nat) {
    h.slab == slab && h.next == NULL && h.tag == TAG_PAGE
  }

  ghost predicate PageHeader(h: Header, kind: seq<Kind>, words: seq<nat>, i: nat)
    requires i < |kind| && Tile(kind, i)
  {
    match kind[i]
    case FreeHead(len) => h.slab == len && h.tag == TAG_PAGE
    // the last page of a free run leads back to its head, unless the run ends the pool
    case FreeBody(head) => BodyHeader(h, 0) && (i + 1 == head + kind[head].len && i + 1 < |kind| ==> h.prev == head)
    case RunHead(len) => BodyHeader(h, START + len)
    case RunBody(_) => BodyHeader(h, BUSY)
    case Loose(len) => h.slab == len
    case LooseBody(_) => BodyHeader(h, 0)
    case Chunks(_, _) => ChunkHeader(h, words, i, kind[i])
  }

  ghost predicate Headers(v: View) {
    && |v.hdr| == |v.kind| + 1 + SLOTS && |v.words| == |v.kind| * PAGE_WORDS && Tiling(v.kind)
    && forall i {:trigger PageHeader(v.hdr[i], v.kind, v.words, i)} :: 0 <= i < |v.kind| ==> PageHeader(v.hdr[i], v.kind, v.words, i)
  }

  // ---- the lists ----

  function FreeRef(v: View): int { |v.kind| }

  function SlotRef(v: View, s: nat): int { |v.kind| + 1 + s }

  /** The list holds exactly the first pages of the free runs. */
  ghost predicate ListsFreeHeads(kind: seq<Kind>, list: seq<int>) {
    && (forall x :: x in list ==> 0 <= x < |kind|)
    && (forall i {:trigger i in list} :: 0 <= i < |kind| ==> (i in list <==> kind[i].FreeHead?))
  }

  ghost predicate FreeList(v: View) {
    Chain(v.hdr, FreeRef(v), v.free) && ListsFreeHeads(v.kind, v.free)
  }

  /** The list holds exactly the slab pages of slot s with a free chunk. */
  ghost predicate ListsPartial(kind: seq<Kind>, list: seq<int>, s: nat) {
    && (forall x :: x in list ==> 0 <= x < |kind|)
    && (forall i {:trigger i in list} {:trigger Partial(kind[i], s)} :: 0 <= i < |kind| ==> (i in list <==> Partial(kind[i], s)))
  }

  ghost predicate SlotList(v: View, s: nat)
    requires s < |v.slots|
  {
    Chain(v.hdr, SlotRef(v, s), v.slots[s]) && ListsPartial(v.kind, v.slots[s], s)
  }

  ghost predicate Lists(v: View) {
    FreeList(v) && |v.slots| == SLOTS && forall s :: 0 <= s < SLOTS ==> SlotList(v, s)
  }

  // ---- the counters ----

  datatype Measure = FreePages | Used(s: nat) | Total(s: nat)

  ghost function Weight(k: Kind, m: Measure): int {
    match m
    case FreePages => if k.FreeHead? || k.Loose? then k.len else 0
    case Used(s) => if k.Chunks? && k.shift == s + MIN_SHIFT then |k.busy| else 0
    case Total(s) => if k.Chunks? && k.shift == s + MIN_SHIFT then Count(k.shift) - Reserved(k.shift) else 0
  }

  ghost function Sum(kind: seq<Kind>, m: Measure): int {
    if kind == [] then 0 else Weight(kind[0], m) + Sum(kind[1..], m)
  }

  /** Per slot, `used` counts the chunks handed out and `total` the capacity of the pages cut for the slot. */
  ghost predicate SlotsCounted(v: View) {
    && |v.stats| == SLOTS
    && forall s :: 0 <= s < SLOTS ==> v.stats[s].used == Sum(v.kind, Used(s)) && v.stats[s].total == Sum(v.kind, Total(s))
  }

  /** The invariant, except that a slab page may be idle, a run may be loose, runs may touch and slot counters may lag. */
  ghost predicate Sound(v: View) {
    Headers(v) && Lists(v) && v.pfree == Sum(v.kind, FreePages) && |v.kind| < START - 1
  }

  ghost predicate Settled(k: Kind) {
    !k.Loose? && !k.LooseBody? && !(k.Chunks? && k.busy == {})
  }

  /** The invariant of the pool between two calls. */
  ghost predicate Inv(v: View) {
    Sound(v) && SlotsCounted(v) && Coalesced(v.kind) && 0 < |v.kind| && forall i :: 0 <= i < |v.kind| ==> Settled(v.kind[i])
  }

  // ---- sums ----

  lemma {:induction false} SumUpdate(kind: seq<Kind>, i: nat, k: Kind, m: Measure)
    requires i < |kind|
    ensures Sum(kind[i := k], m) == Sum(kind, m) - Weight(kind[i], m) + Weight(k, m)
  {
    if i == 0 {
      assert kind[0 := k][1..] == kind[1..];
    } else {
      assert kind[i := k][1..] == kind[1..][i - 1 := k];
      SumUpdate(kind[1..], i - 1, k, m);
    }
  }

  lemma {:induction false} SumSame(kind: seq<Kind>, kind': seq<Kind>, m: Measure)
    requires |kind| == |kind'| && forall i :: 0 <= i < |kind| ==> Weight(kind[i], m) == Weight(kind'[i], m)
    ensures Sum(kind, m) == Sum(kind', m)
  {
    if kind != [] {
      assert Weight(kind[0], m) == Weight(kind'[0], m);
      forall i | 0 <= i < |kind[1..]|
        ensures Weight(kind[1..][i], m) == Weight(kind'[1..][i], m)
      {
        assert Weight(kind[i + 1], m) == Weight(kind'[i + 1], m);
      }
      SumSame(kind[1..], kind'[1..], m);
    }
  }

  /** The sum changes by what changes at one or two places. */
  lemma SumChange(kind: seq<Kind>, kind': seq<Kind>, i: nat, j: nat, m: Measure)
    requires |kind| == |kind'| && i < |kind| && j < |kind|
    requires forall k :: 0 <= k < |kind| && k != i && k != j ==> Weight(kind[k], m) == Weight(kind'[k], m)
    ensures Sum(kind', m) == Sum(kind, m) - Weight(kind[i], m) + Weight(kind'[i], m)
                             + (if j == i then 0 else Weight(kind'[j], m) - Weight(kind[j], m))
  {
    var mid := kind[i := kind'[i]];
    SumUpdate(kind, i, kind'[i], m);
    SumUpdate(mid, j, kind'[j], m);
    SumSame(mid[j := kind'[j]], kind', m);
  }

  // ---- frames ----

  lemma PartialKept(kind: seq<Kind>, kind': seq<Kind>, list: seq<int>, s: nat)
    requires ListsPartial(kind, list, s) && |kind'| == |kind|
    requires forall i :: 0 <= i < |kind| && (kind[i].Chunks? || kind'[i].Chunks?) ==> kind'[i] == kind[i]
    ensures ListsPartial(kind', list, s)
  {
    forall i | 0 <= i < |kind|
      ensures i in list <==> Partial(kind'[i], s)
    {
      assert i in list <==> Partial(kind[i], s);
      assert kind[i].Chunks? || kind'[i].Chunks? ==> kind'[i] == kind[i];
    }
  }

  lemma PartialElements(kind: seq<Kind>, list: seq<int>, s: nat)
    requires ListsPartial(kind, list, s)
    ensures forall i :: 0 <= i < |list| ==> 0 <= list[i] < |kind| && kind[list[i]].Chunks?
  {
    forall i | 0 <= i < |list|
      ensures 0 <= list[i] < |kind| && kind[list[i]].Chunks?
    {
      assert list[i] in list;
      assert Partial(kind[list[i]], s);
    }
  }

  /** A slot list survives everything that leaves slab pages and their links alone. */
  lemma SlotUntouched(v: View, v': View, s: nat)
    requires s < |v.slots| && SlotList(v, s) && v'.slots == v.slots
    requires |v'.kind| == |v.kind| && |v'.hdr| == |v.hdr| && |v.kind| <= |v.hdr|
    requires forall i :: 0 <= i < |v.kind| && v.kind[i].Chunks? ==>
      v'.hdr[i].next == v.hdr[i].next && v'.hdr[i].prev == v.hdr[i].prev
    requires forall i :: 0 <= i < |v.kind| && (v.kind[i].Chunks? || v'.kind[i].Chunks?) ==> v'.kind[i] == v.kind[i]
    requires v'.hdr[SlotRef(v, s)].next == v.hdr[SlotRef(v, s)].next
    ensures SlotList(v', s)
  {
    PartialKept(v.kind, v'.kind, v.slots[s], s);
    PartialElements(v.kind, v.slots[s], s);
    ChainKept(v.hdr, v'.hdr, SlotRef(v, s), v.slots[s]);
  }
}
