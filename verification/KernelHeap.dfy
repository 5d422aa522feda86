/** The tagged global allocator (memory_allocator.rs) over the slab and page allocators. */
module KernelHeap {
  import opened Machine

  const PAGE: nat := 4096
  const PAGE_THRESHOLD: nat := 2048
  const TAG_SIZE: nat := 8

  /** Little-endian bytes of a u64, as a store through `*mut u64` leaves them. */
  function LeBytes(v: nat): (bytes: seq<Byte>)
    ensures |bytes| == TAG_SIZE && bytes[0] == v % 256
  {
    seq(TAG_SIZE, i requires 0 <= i < TAG_SIZE => ByteOf(v, i))
  }

  function ByteOf(v: nat, i: nat): Byte {
    if i == 0 then v % 256 else ByteOf(v / 256, i - 1)
  }

  const TAG_KMALLOC := LeBytes(0xA115_4B4D_414C_4C01)
  const TAG_PMM_PAGE := LeBytes(0xA115_504D_4D50_4702)
  const TAG_PMM_PAGES := LeBytes(0xA115_504D_4D50_4703)

  lemma TagsDiffer()
    ensures TAG_KMALLOC != TAG_PMM_PAGE && TAG_KMALLOC != TAG_PMM_PAGES && TAG_PMM_PAGE != TAG_PMM_PAGES
  {
    assert TAG_KMALLOC[0] == 1 && TAG_PMM_PAGE[0] == 2 && TAG_PMM_PAGES[0] == 3;
  }

  type Memory = map<int, Byte>

  function Load(mem: Memory, a: int): Byte {
    if a in mem then mem[a] else 0
  }

  function LoadTag(mem: Memory, a: int): (tag: seq<Byte>)
    ensures |tag| == TAG_SIZE
  {
    [Load(mem, a), Load(mem, a + 1), Load(mem, a + 2), Load(mem, a + 3),
     Load(mem, a + 4), Load(mem, a + 5), Load(mem, a + 6), Load(mem, a + 7)]
  }

  function StoreTag(mem: Memory, a: int, tag: seq<Byte>): Memory
    requires |tag| == TAG_SIZE
  {
    mem[a := tag[0]][a + 1 := tag[1]][a + 2 := tag[2]][a + 3 := tag[3]]
       [a + 4 := tag[4]][a + 5 := tag[5]][a + 6 := tag[6]][a + 7 := tag[7]]
  }

  function DivCeil(n: nat, d: nat): nat
    requires d > 0
  {
    (n + d - 1) / d
  }

  // ---- what the allocators hand out ---------------------------------------------

  /** Where a block came from, and so where it must go back. */
  datatype Origin = Kmalloc(raw: int) | Pages(phys: int, count: nat)

  datatype Block = Block(size: nat, origin: Origin)

  /** `kmallocs` and `pages` are the backing allocators' live blocks; `live` the client's, by pointer. */
  datatype Heap = Heap(mem: Memory, kmallocs: map<int, nat>, pages: map<int, nat>, live: map<int, Block>)

  predicate Apart(a: int, n: nat, b: int, m: nat) {
    a + n <= b || b + m <= a
  }

  function PageBase(phys: int): int {
    phys + KERNEL_BASE
  }

  ghost predicate Free(h: Heap, base: int, n: nat) {
    && (forall raw :: raw in h.kmallocs ==> Apart(raw, h.kmallocs[raw], base, n))
    && (forall p :: p in h.pages ==> Apart(PageBase(p), PAGE * h.pages[p], base, n))
  }

  /** What a pointer and its layout size say about a live block. */
  ghost predicate BlockOk(h: Heap, ptr: int, b: Block) {
    b.size > 0 &&
    match b.origin
    case Kmalloc(raw) =>
      && b.size <= PAGE_THRESHOLD && ptr == raw + TAG_SIZE && raw > 0
      && raw in h.kmallocs && h.kmallocs[raw] == b.size + TAG_SIZE
      && LoadTag(h.mem, raw) == TAG_KMALLOC
    case Pages(phys, count) =>
      && phys in h.pages && h.pages[phys] == count && phys > 0
      && if b.size <= PAGE_THRESHOLD then
           && count == 1 && ptr == PageBase(phys) + TAG_SIZE
           && LoadTag(h.mem, PageBase(phys)) == TAG_PMM_PAGE
         else
           count == DivCeil(b.size, PAGE) && ptr == PageBase(phys)
  }

  ghost predicate LiveOk(h: Heap) {
    forall ptr :: ptr in h.live ==> BlockOk(h, ptr, h.live[ptr])
  }

  /** Backing blocks never overlap. */
  ghost predicate BackingApart(h: Heap) {
    && (forall r, q :: r in h.kmallocs && q in h.kmallocs && r != q ==> Apart(r, h.kmallocs[r], q, h.kmallocs[q]))
    && (forall p, q :: p in h.pages && q in h.pages && p != q ==>
          Apart(PageBase(p), PAGE * h.pages[p], PageBase(q), PAGE * h.pages[q]))
    && (forall r, p :: r in h.kmallocs && p in h.pages ==> Apart(r, h.kmallocs[r], PageBase(p), PAGE * h.pages[p]))
  }

  ghost predicate Owns(h: Heap, ptr: int, o: Origin) {
    ptr in h.live && h.live[ptr].origin == o
  }

  /** Every backing block belongs to a live client block: nothing leaks. */
  ghost predicate NothingLeaked(h: Heap) {
    && (forall raw :: raw in h.kmallocs ==> Owns(h, raw + TAG_SIZE, Kmalloc(raw)))
    && (forall p :: p in h.pages ==>
          Owns(h, PageBase(p), Pages(p, h.pages[p])) || Owns(h, PageBase(p) + TAG_SIZE, Pages(p, h.pages[p])))
  }

  predicate SameBacking(a: Origin, b: Origin) {
    || (a.Kmalloc? && b.Kmalloc? && a.raw == b.raw)
    || (a.Pages? && b.Pages? && a.phys == b.phys)
  }

  /** No two client blocks share a backing block. */
  ghost predicate NothingShared(h: Heap) {
    forall p, q :: p in h.live && q in h.live && p != q ==> !SameBacking(h.live[p].origin, h.live[q].origin)
  }

  ghost predicate Inv(h: Heap) {
    LiveOk(h) && BackingApart(h) && NothingLeaked(h) && NothingShared(h)
  }

  // ---- the operations ------------------------------------------------------------

  /** The page request an allocation makes when the slab allocator does not serve it. */
  function PagesNeeded(size: nat): nat {
    DivCeil(if size <= PAGE_THRESHOLD then size + TAG_SIZE else size, PAGE)
  }

  /** The slab allocator's answer: null, or fresh memory. */
  ghost predicate KmallocGives(h: Heap, size: nat, raw: int) {
    raw == 0 || Free(h, raw, size + TAG_SIZE)
  }

  /** The page allocator's answer: null, or fresh pages. */
  ghost predicate PmmGives(h: Heap, count: nat, phys: int) {
    phys == 0 || Free(h, PageBase(phys), PAGE * count)
  }

  /** Sizes are positive, as `GlobalAlloc` demands, and each backing allocator answers null or fresh memory. */
  ghost predicate Answers(h: Heap, size: nat, raw: nat, phys: nat) {
    size > 0 && KmallocGives(h, size, raw) && PmmGives(h, PagesNeeded(size), phys)
  }

  predicate FromSlab(size: nat, raw: nat) {
    size <= PAGE_THRESHOLD && raw != 0
  }

  /** The allocator that is consulted last answers with memory. */
  predicate Supplied(size: nat, raw: nat, phys: nat) {
    FromSlab(size, raw) || phys != 0
  }

  /** `alloc`, given the answers of `kmalloc` and of the page allocator. A null page answer is not noticed. */
  function AllocStep(h: Heap, size: nat, raw: nat, phys: nat): (r: (Heap, int)) {
    if FromSlab(size, raw) then
      var ptr := raw + TAG_SIZE;
      (Heap(StoreTag(h.mem, raw, TAG_KMALLOC), h.kmallocs[raw := size + TAG_SIZE], h.pages,
            h.live[ptr := Block(size, Kmalloc(raw))]), ptr)
    else
      var count := PagesNeeded(size);
      var tagged := size <= PAGE_THRESHOLD;
      var tag := if count == 1 then TAG_PMM_PAGE else TAG_PMM_PAGES;
      var ptr := PageBase(phys) + if tagged then TAG_SIZE else 0;
      (Heap(if tagged then StoreTag(h.mem, PageBase(phys), tag) else h.mem, h.kmallocs,
            if phys == 0 then h.pages else h.pages[phys := count],
            h.live[ptr := Block(size, Pages(phys, count))]), ptr)
  }

  datatype FreeCall = KFree(raw: int) | FreePage(phys: int) | FreePages(phys: int, count: nat) | NoCall

  /** Which free `dealloc` calls, from the pointer, the layout size and the tag bytes alone. */
  function Route(mem: Memory, ptr: int, size: nat): FreeCall {
    if ptr == 0 then NoCall
    else if size <= PAGE_THRESHOLD then
      var raw := ptr - TAG_SIZE;
      var tag := LoadTag(mem, raw);
      if tag == TAG_KMALLOC then KFree(raw)
      else if tag == TAG_PMM_PAGE then FreePage(raw - KERNEL_BASE)
      else if tag == TAG_PMM_PAGES then FreePages(raw - KERNEL_BASE, DivCeil(size + TAG_SIZE, PAGE))
      else KFree(raw)
    else
      var count := DivCeil(size, PAGE);
      if count <= 1 then FreePage(ptr - KERNEL_BASE) else FreePages(ptr - KERNEL_BASE, count)
  }

  function FreeFor(o: Origin): FreeCall {
    match o
    case Kmalloc(raw) => KFree(raw)
    case Pages(phys, count) => if count == 1 then FreePage(phys) else FreePages(phys, count)
  }

  /** The backing allocators after the routed free, with the client block gone. */
  function DeallocStep(h: Heap, ptr: int, size: nat): Heap {
    match Route(h.mem, ptr, size)
    case KFree(raw) => h.(kmallocs := h.kmallocs - {raw}, live := h.live - {ptr})
    case FreePage(phys) => h.(pages := h.pages - {phys}, live := h.live - {ptr})
    case FreePages(phys, _) => h.(pages := h.pages - {phys}, live := h.live - {ptr})
    case NoCall => h
  }

  // ---- routing -------------------------------------------------------------------

  lemma DivCeilOne(n: nat)
    requires 1 <= n <= PAGE
    ensures DivCeil(n, PAGE) == 1
  {
  }

  lemma DivCeilCovers(n: nat)
    ensures n <= PAGE * DivCeil(n, PAGE) < n + PAGE
  {
  }

  /**
   * A live block freed with its own layout goes back to the allocator it came
   * from, with its original base and page count; the unknown-tag arm and the
   * multi-page-tag arm are not taken.
   */
  lemma RouteIsOrigin(h: Heap, ptr: int)
    requires Inv(h) && ptr in h.live
    ensures ptr != 0
    ensures Route(h.mem, ptr, h.live[ptr].size) == FreeFor(h.live[ptr].origin)
    ensures h.live[ptr].size <= PAGE_THRESHOLD ==> LoadTag(h.mem, ptr - TAG_SIZE) in {TAG_KMALLOC, TAG_PMM_PAGE}
  {
    hide LeBytes, LoadTag, DivCeil;
    TagsDiffer();
    assert BlockOk(h, ptr, h.live[ptr]);
    DivCeilCovers(h.live[ptr].size);
  }

  /** What the freeing code finds: which tag, and that the block it names is still held. */
  lemma FreeTarget(h: Heap, ptr: int)
    requires Inv(h) && ptr in h.live
    ensures ptr != 0
    ensures h.live[ptr].size <= PAGE_THRESHOLD ==>
              var raw, phys, o := ptr - TAG_SIZE, ptr - TAG_SIZE - KERNEL_BASE, h.live[ptr].origin;
              || (LoadTag(h.mem, raw) == TAG_KMALLOC && o == Kmalloc(raw) && raw in h.kmallocs)
              || (LoadTag(h.mem, raw) == TAG_PMM_PAGE != TAG_KMALLOC && o == Pages(phys, 1) && phys in h.pages && h.pages[phys] == 1)
    ensures h.live[ptr].size > PAGE_THRESHOLD ==>
              var phys, count := ptr - KERNEL_BASE, DivCeil(h.live[ptr].size, PAGE);
              h.live[ptr].origin == Pages(phys, count) && phys in h.pages && h.pages[phys] == count >= 1
  {
    hide LeBytes, LoadTag, DivCeil;
    TagsDiffer();
    assert BlockOk(h, ptr, h.live[ptr]);
    DivCeilCovers(h.live[ptr].size);
  }

  // ---- every step keeps the invariant ----------------------------------------------

  lemma StoreTagReads(mem: Memory, a: int, tag: seq<Byte>, b: int)
    requires |tag| == TAG_SIZE
    ensures LoadTag(StoreTag(mem, a, tag), a) == tag
    ensures Apart(a, TAG_SIZE, b, TAG_SIZE) ==> LoadTag(StoreTag(mem, a, tag), b) == LoadTag(mem, b)
  {
    hide LeBytes;
  }

  /** A block that stays live keeps its description when fresh memory is tagged and registered. */
  lemma OthersKept(h: Heap, h': Heap, base: int, n: nat, tag: seq<Byte>, ptr: int)
    requires Inv(h) && ptr in h.live && |tag| == TAG_SIZE <= n
    requires Free(h, base, n)
    requires h'.mem == StoreTag(h.mem, base, tag) || h'.mem == h.mem
    requires forall raw :: raw in h.kmallocs ==> raw in h'.kmallocs && h'.kmallocs[raw] == h.kmallocs[raw]
    requires forall p :: p in h.pages ==> p in h'.pages && h'.pages[p] == h.pages[p]
    ensures BlockOk(h', ptr, h.live[ptr])
  {
    hide LeBytes, LoadTag, StoreTag, DivCeil;
    assert BlockOk(h, ptr, h.live[ptr]);
    match h.live[ptr].origin
    case Kmalloc(raw) => StoreTagReads(h.mem, base, tag, raw);
    case Pages(p, _) => StoreTagReads(h.mem, base, tag, PageBase(p));
  }

  lemma PageCountPositive(h: Heap, p: int)
    requires Inv(h) && p in h.pages
    ensures h.pages[p] > 0
  {
    hide LeBytes, LoadTag, StoreTag;
    var ptr := if Owns(h, PageBase(p), Pages(p, h.pages[p])) then PageBase(p) else PageBase(p) + TAG_SIZE;
    assert Owns(h, ptr, Pages(p, h.pages[p]));
    assert BlockOk(h, ptr, h.live[ptr]);
    DivCeilCovers(h.live[ptr].size);
  }

  /** A live pointer lies inside its backing block. */
  lemma PointerInside(h: Heap, ptr: int)
    requires Inv(h) && ptr in h.live
    ensures match h.live[ptr].origin
            case Kmalloc(raw) =>
              raw in h.kmallocs && raw <= ptr && ptr + h.live[ptr].size <= raw + h.kmallocs[raw]
            case Pages(p, _) =>
              p in h.pages && PageBase(p) <= ptr && ptr + h.live[ptr].size <= PageBase(p) + PAGE * h.pages[p]
  {
    hide LeBytes, LoadTag, StoreTag;
    assert BlockOk(h, ptr, h.live[ptr]);
    DivCeilCovers(h.live[ptr].size);
  }

  /** Fresh memory is the address of no live pointer and of no live backing block. */
  lemma FreshPointer(h: Heap, base: int, n: nat, ptr: int)
    requires Inv(h) && Free(h, base, n) && base <= ptr && ptr < base + n
    ensures ptr !in h.live && base !in h.kmallocs
    ensures forall p :: p in h.pages ==> PageBase(p) != base
  {
    hide LeBytes, LoadTag, StoreTag, DivCeil;
    if ptr in h.live {
      PointerInside(h, ptr);
    }
    if base in h.kmallocs {
      PointerInside(h, base + TAG_SIZE);
    }
    forall p | p in h.pages
      ensures PageBase(p) != base
    {
      PageCountPositive(h, p);
    }
  }

  lemma LiveAfterAlloc(h: Heap, h': Heap, base: int, n: nat, tag: seq<Byte>, ptr: int)
    requires Inv(h) && |tag| == TAG_SIZE <= n && Free(h, base, n) && ptr !in h.live
    requires h'.mem == StoreTag(h.mem, base, tag) || h'.mem == h.mem
    requires forall raw :: raw in h.kmallocs ==> raw in h'.kmallocs && h'.kmallocs[raw] == h.kmallocs[raw]
    requires forall p :: p in h.pages ==> p in h'.pages && h'.pages[p] == h.pages[p]
    requires ptr in h'.live && h'.live == h.live[ptr := h'.live[ptr]] && BlockOk(h', ptr, h'.live[ptr])
    ensures LiveOk(h')
  {
    hide LeBytes, LoadTag, StoreTag, DivCeil, BlockOk, Inv;
    forall q | q in h'.live
      ensures BlockOk(h', q, h'.live[q])
    {
      if q != ptr {
        OthersKept(h, h', base, n, tag, q);
      }
    }
  }

  /** Registering a fresh slab block for a fresh pointer. */
  ghost predicate AddsKmalloc(h: Heap, h': Heap, raw: int) {
    var ptr := raw + TAG_SIZE;
    && ptr !in h.live && raw !in h.kmallocs && raw in h'.kmallocs && ptr in h'.live
    && h'.pages == h.pages && h'.kmallocs == h.kmallocs[raw := h'.kmallocs[raw]]
    && h'.live == h.live[ptr := h'.live[ptr]] && h'.live[ptr].origin == Kmalloc(raw)
    && Free(h, raw, h'.kmallocs[raw])
  }

  lemma AddedKmallocApart(h: Heap, h': Heap, raw: int)
    requires Inv(h) && AddsKmalloc(h, h', raw)
    ensures BackingApart(h')
  {
    hide LiveOk, NothingLeaked, NothingShared;
  }

  lemma AddedKmallocOwned(h: Heap, h': Heap, raw: int)
    requires Inv(h) && AddsKmalloc(h, h', raw)
    ensures NothingLeaked(h') && NothingShared(h')
  {
    hide BlockOk, BackingApart, Free;
    forall q | q in h.live
      ensures !SameBacking(h.live[q].origin, Kmalloc(raw))
    {
      PointerInside(h, q);
    }
    assert forall q, o :: Owns(h, q, o) ==> Owns(h', q, o);
  }

  lemma KmallocKeeps(h: Heap, size: nat, raw: nat, phys: nat)
    requires Inv(h) && Answers(h, size, raw, phys) && FromSlab(size, raw)
    ensures Inv(AllocStep(h, size, raw, phys).0)
    ensures AllocStep(h, size, raw, phys).1 !in h.live
  {
    hide LeBytes, LoadTag, StoreTag, DivCeil, BackingApart, NothingLeaked, NothingShared, Free, LiveOk;
    var (h', ptr) := AllocStep(h, size, raw, phys);
    StoreTagReads(h.mem, raw, TAG_KMALLOC, raw);
    FreshPointer(h, raw, size + TAG_SIZE, ptr);
    assert AddsKmalloc(h, h', raw);
    LiveAfterAlloc(h, h', raw, size + TAG_SIZE, TAG_KMALLOC, ptr);
    AddedKmallocApart(h, h', raw);
    AddedKmallocOwned(h, h', raw);
  }

  /** Registering a fresh page block for a fresh pointer. */
  ghost predicate AddsPages(h: Heap, h': Heap, phys: int, ptr: int) {
    && ptr !in h.live && phys !in h.pages && phys in h'.pages && ptr in h'.live
    && h'.kmallocs == h.kmallocs && h'.pages == h.pages[phys := h'.pages[phys]]
    && h'.live == h.live[ptr := h'.live[ptr]] && h'.live[ptr].origin == Pages(phys, h'.pages[phys])
    && (ptr == PageBase(phys) || ptr == PageBase(phys) + TAG_SIZE)
    && Free(h, PageBase(phys), PAGE * h'.pages[phys])
  }

  lemma AddedPagesApart(h: Heap, h': Heap, phys: int, ptr: int)
    requires Inv(h) && AddsPages(h, h', phys, ptr)
    ensures BackingApart(h')
  {
    hide LiveOk, NothingLeaked, NothingShared;
  }

  lemma AddedPagesOwned(h: Heap, h': Heap, phys: int, ptr: int)
    requires Inv(h) && AddsPages(h, h', phys, ptr)
    ensures NothingLeaked(h') && NothingShared(h')
  {
    hide BlockOk, BackingApart, Free;
    forall q | q in h.live
      ensures !SameBacking(h.live[q].origin, h'.live[ptr].origin)
    {
      PointerInside(h, q);
    }
    assert forall q, o :: Owns(h, q, o) ==> Owns(h', q, o);
  }

  lemma PagesKeep(h: Heap, size: nat, raw: nat, phys: nat)
    requires Inv(h) && Answers(h, size, raw, phys) && !FromSlab(size, raw) && phys != 0
    ensures Inv(AllocStep(h, size, raw, phys).0)
    ensures AllocStep(h, size, raw, phys).1 !in h.live
  {
    hide LeBytes, LoadTag, StoreTag, BackingApart, NothingLeaked, NothingShared, Free, LiveOk;
    var (h', ptr) := AllocStep(h, size, raw, phys);
    var base, n := PageBase(phys), PAGE * PagesNeeded(size);
    DivCeilCovers(size);
    if size <= PAGE_THRESHOLD {
      DivCeilOne(size + TAG_SIZE);
    }
    hide DivCeil;
    StoreTagReads(h.mem, base, TAG_PMM_PAGE, base);
    FreshPointer(h, base, n, ptr);
    assert AddsPages(h, h', phys, ptr);
    LiveAfterAlloc(h, h', base, n, TAG_PMM_PAGE, ptr);
    AddedPagesApart(h, h', phys, ptr);
    AddedPagesOwned(h, h', phys, ptr);
  }

  lemma AllocKeeps(h: Heap, size: nat, raw: nat, phys: nat)
    requires Inv(h) && Answers(h, size, raw, phys) && Supplied(size, raw, phys)
    ensures Inv(AllocStep(h, size, raw, phys).0)
    ensures AllocStep(h, size, raw, phys).1 !in h.live
    ensures AllocStep(h, size, raw, phys).1 in AllocStep(h, size, raw, phys).0.live
  {
    hide Inv, Answers;
    if FromSlab(size, raw) {
      KmallocKeeps(h, size, raw, phys);
    } else {
      PagesKeep(h, size, raw, phys);
    }
  }

  /**
   * `alloc` cannot report exhaustion: when the page allocator's null is the
   * last word it returns a non-null pointer into the kernel's first page, which
   * no allocator gave it.
   */
  lemma ExhaustionIsNotReported(h: Heap, size: nat, raw: nat)
    requires !FromSlab(size, raw)
    ensures var (h', ptr) := AllocStep(h, size, raw, 0);
            && ptr == PageBase(0) + (if size <= PAGE_THRESHOLD then TAG_SIZE else 0)
            && h'.kmallocs == h.kmallocs && h'.pages == h.pages && ptr in h'.live
            && !Inv(h')
  {
    hide LeBytes, LoadTag, StoreTag, PagesNeeded;
    var (h', ptr) := AllocStep(h, size, raw, 0);
    assert !BlockOk(h', ptr, h'.live[ptr]);
  }

  /** Whatever the allocators answer, `alloc` returns a pointer; it is a fresh block of a sound heap exactly when it was supplied. */
  lemma AllocKeepsIff(h: Heap, size: nat, raw: nat, phys: nat)
    requires Inv(h) && Answers(h, size, raw, phys)
    ensures var (h', ptr) := AllocStep(h, size, raw, phys);
            && ptr != 0
            && (Inv(h') && ptr !in h.live && ptr in h'.live <==> Supplied(size, raw, phys))
            && (Inv(h') <==> Supplied(size, raw, phys))
  {
    hide Inv, Answers, LeBytes, StoreTag, DivCeil;
    if Supplied(size, raw, phys) {
      AllocKeeps(h, size, raw, phys);
    } else {
      ExhaustionIsNotReported(h, size, raw);
    }
  }

  /**
   * Where an allocation comes from: up to 2048 bytes and an 8-byte tag from the
   * slab allocator, else from the one page that holds both; more from as many
   * whole pages as the size needs.
   */
  lemma AllocOrigin(h: Heap, size: nat, raw: nat, phys: nat)
    requires size > 0
    ensures var (h', ptr) := AllocStep(h, size, raw, phys);
            && ptr in h'.live && h'.live == h.live[ptr := h'.live[ptr]] && h'.live[ptr].size == size
            && if size <= 2048 && raw != 0 then
                 && ptr == raw + 8 && h'.live[ptr].origin == Kmalloc(raw)
                 && h'.kmallocs == h.kmallocs[raw := size + 8] && h'.pages == h.pages
               else
                 && h'.live[ptr].origin.Pages? && h'.live[ptr].origin.phys == phys && h'.kmallocs == h.kmallocs
                 && ptr == phys + KERNEL_BASE + (if size <= 2048 then 8 else 0)
                 && var count := h'.live[ptr].origin.count;
                    && (if size <= 2048 then count == 1 else 4096 * (count - 1) < size <= 4096 * count)
                    && h'.pages == if phys == 0 then h.pages else h.pages[phys := count]
  {
    hide LeBytes, StoreTag;
    if size <= 2048 {
      DivCeilOne(size + TAG_SIZE);
    } else {
      DivCeilCovers(size);
    }
    hide DivCeil;
  }

  // ---- freeing -------------------------------------------------------------------

  /** Freeing a live block removes it and exactly the backing block it came from. */
  lemma DeallocIsInverse(h: Heap, ptr: int)
    requires Inv(h) && ptr in h.live
    ensures Removes(h, DeallocStep(h, ptr, h.live[ptr].size), ptr)
  {
    hide LeBytes, LoadTag, StoreTag, DivCeil, Route, Inv, BlockOk;
    RouteIsOrigin(h, ptr);
  }

  ghost predicate Removes(h: Heap, h': Heap, ptr: int) {
    && ptr in h.live
    && h'.live == h.live - {ptr} && h'.mem == h.mem
    && h'.kmallocs == (if h.live[ptr].origin.Kmalloc? then h.kmallocs - {h.live[ptr].origin.raw} else h.kmallocs)
    && h'.pages == (if h.live[ptr].origin.Pages? then h.pages - {h.live[ptr].origin.phys} else h.pages)
  }

  lemma RemovedStillOk(h: Heap, h': Heap, ptr: int, q: int)
    requires Inv(h) && Removes(h, h', ptr) && q in h'.live
    ensures BlockOk(h', q, h'.live[q])
  {
    hide LeBytes, LoadTag, DivCeil, BackingApart, NothingLeaked;
    assert BlockOk(h, q, h.live[q]);
    assert !SameBacking(h.live[q].origin, h.live[ptr].origin);
  }

  lemma RemovedOwned(h: Heap, h': Heap, ptr: int)
    requires Inv(h) && Removes(h, h', ptr)
    ensures NothingLeaked(h')
  {
    hide BlockOk, BackingApart;
    PointerInside(h, ptr);
    assert forall q, o :: Owns(h, q, o) && q != ptr ==> Owns(h', q, o);
  }

  lemma RemovedKeeps(h: Heap, h': Heap, ptr: int)
    requires Inv(h) && Removes(h, h', ptr)
    ensures Inv(h')
  {
    hide LeBytes, LoadTag, BlockOk, NothingLeaked;
    RemovedOwned(h, h', ptr);
    forall q | q in h'.live
      ensures BlockOk(h', q, h'.live[q])
    {
      RemovedStillOk(h, h', ptr, q);
    }
  }

  lemma DeallocKeeps(h: Heap, ptr: int)
    requires Inv(h) && ptr in h.live
    ensures Inv(DeallocStep(h, ptr, h.live[ptr].size))
  {
    hide Inv, Removes, DeallocStep;
    DeallocIsInverse(h, ptr);
    RemovedKeeps(h, DeallocStep(h, ptr, h.live[ptr].size), ptr);
  }

  // ---- client writes ---------------------------------------------------------------

  ghost predicate InClient(h: Heap, ptr: int, a: int) {
    ptr in h.live && ptr <= a < ptr + h.live[ptr].size
  }

  ghost predicate InBacking(h: Heap, a: int) {
    || (exists raw :: raw in h.kmallocs && raw <= a < raw + h.kmallocs[raw])
    || (exists p :: p in h.pages && PageBase(p) <= a < PageBase(p) + PAGE * h.pages[p])
  }

  /** Clients write only inside their live blocks; memory nobody owns may change freely. */
  ghost predicate ClientsWrote(h: Heap, mem: Memory) {
    forall a :: InBacking(h, a) && (forall ptr :: !InClient(h, ptr, a)) ==> Load(mem, a) == Load(h.mem, a)
  }

  /** The address where a live block's tag starts, when it has one. */
  function TagAddress(b: Block): int {
    match b.origin
    case Kmalloc(raw) => raw
    case Pages(p, _) => PageBase(p)
  }

  /** No client block covers a tag byte. */
  lemma TagByteIsPrivate(h: Heap, ptr: int, a: int, q: int)
    requires Inv(h) && ptr in h.live && h.live[ptr].size <= PAGE_THRESHOLD
    requires TagAddress(h.live[ptr]) <= a < TagAddress(h.live[ptr]) + TAG_SIZE
    ensures InBacking(h, a)
    ensures !InClient(h, q, a)
  {
    hide LeBytes, LoadTag, StoreTag, DivCeil;
    assert BlockOk(h, ptr, h.live[ptr]);
    PointerInside(h, ptr);
    if q in h.live && q != ptr {
      PointerInside(h, q);
      assert !SameBacking(h.live[ptr].origin, h.live[q].origin);
    }
  }

  lemma TagSurvives(h: Heap, mem: Memory, ptr: int)
    requires Inv(h) && ClientsWrote(h, mem) && ptr in h.live && h.live[ptr].size <= PAGE_THRESHOLD
    ensures LoadTag(mem, TagAddress(h.live[ptr])) == LoadTag(h.mem, TagAddress(h.live[ptr]))
  {
    hide LeBytes, StoreTag, DivCeil, Inv, InBacking, InClient;
    var t := TagAddress(h.live[ptr]);
    forall a | t <= a < t + TAG_SIZE
      ensures Load(mem, a) == Load(h.mem, a)
    {
      forall q
        ensures !InClient(h, q, a)
      {
        TagByteIsPrivate(h, ptr, a, q);
      }
      TagByteIsPrivate(h, ptr, a, ptr);
    }
  }

  lemma WritesKeep(h: Heap, mem: Memory)
    requires Inv(h) && ClientsWrote(h, mem)
    ensures Inv(h.(mem := mem))
  {
    hide LeBytes, LoadTag, StoreTag, DivCeil, ClientsWrote;
    var h' := h.(mem := mem);
    forall q | q in h'.live
      ensures BlockOk(h', q, h'.live[q])
    {
      assert BlockOk(h, q, h.live[q]);
      if h.live[q].size <= PAGE_THRESHOLD {
        TagSurvives(h, mem, q);
      }
    }
    assert forall ptr, o :: Owns(h, ptr, o) ==> Owns(h', ptr, o);
  }

  // ---- whole histories ---------------------------------------------------------------

  datatype Op = AllocOp(size: nat, raw: nat, phys: nat) | DeallocOp(ptr: int) | WriteOp(mem: Memory)

  /** What the backing allocators and the clients may do, memory running out included. */
  ghost predicate Legal(h: Heap, op: Op) {
    match op
    case AllocOp(size, raw, phys) => Answers(h, size, raw, phys)
    case DeallocOp(ptr) => ptr in h.live
    case WriteOp(mem) => ClientsWrote(h, mem)
  }

  predicate SuppliedOp(op: Op) {
    op.AllocOp? ==> Supplied(op.size, op.raw, op.phys)
  }

  predicate SuppliedBelow(ops: seq<Op>, n: nat)
    requires n <= |ops|
  {
    forall i :: 0 <= i < n ==> SuppliedOp(ops[i])
  }

  function Apply(h: Heap, op: Op): Heap {
    match op
    case AllocOp(size, raw, phys) => AllocStep(h, size, raw, phys).0
    case DeallocOp(ptr) => if ptr in h.live then DeallocStep(h, ptr, h.live[ptr].size) else h
    case WriteOp(mem) => h.(mem := mem)
  }

  const EMPTY := Heap(map[], map[], map[], map[])

  /** A history: states linked by legal operations, from the empty heap. */
  ghost predicate IsHistory(hs: seq<Heap>, ops: seq<Op>) {
    && |hs| == |ops| + 1 && hs[0] == EMPTY
    && forall i :: 0 <= i < |ops| ==> Legal(hs[i], ops[i]) && hs[i + 1] == Apply(hs[i], ops[i])
  }

  lemma ApplyKeepsIff(h: Heap, op: Op)
    requires Inv(h) && Legal(h, op)
    ensures Inv(Apply(h, op)) <==> SuppliedOp(op)
  {
    hide Inv, AllocStep, DeallocStep, Answers, Supplied, ClientsWrote;
    match op
    case AllocOp(size, raw, phys) => AllocKeepsIff(h, size, raw, phys);
    case DeallocOp(ptr) => DeallocKeeps(h, ptr);
    case WriteOp(mem) => WritesKeep(h, mem);
  }

  lemma {:induction false} HistoriesKeep(hs: seq<Heap>, ops: seq<Op>, i: nat)
    requires IsHistory(hs, ops) && i < |hs| && SuppliedBelow(ops, i)
    ensures Inv(hs[i])
  {
    if i > 0 {
      hide Inv, Apply, Legal, SuppliedOp;
      HistoriesKeep(hs, ops, i - 1);
      ApplyKeepsIff(hs[i - 1], ops[i - 1]);
    }
  }

  /** The heap is sound throughout a history exactly when memory never ran out in it. */
  lemma HistoriesKeepIff(hs: seq<Heap>, ops: seq<Op>)
    requires IsHistory(hs, ops)
    ensures (forall i :: 0 <= i < |hs| ==> Inv(hs[i])) <==> SuppliedBelow(ops, |ops|)
  {
    hide Inv, Apply, Legal, SuppliedOp;
    if SuppliedBelow(ops, |ops|) {
      forall i | 0 <= i < |hs|
        ensures Inv(hs[i])
      {
        HistoriesKeep(hs, ops, i);
      }
    } else {
      var i :| 0 <= i < |ops| && !SuppliedOp(ops[i]);
      if Inv(hs[i]) {
        ApplyKeepsIff(hs[i], ops[i]);
        assert !Inv(hs[i + 1]);
      }
    }
  }

  /** Over every history, each free goes to the allocator and the address the block came from. */
  lemma FreesAreRoutedHome(hs: seq<Heap>, ops: seq<Op>, i: nat)
    requires IsHistory(hs, ops) && i < |ops| && ops[i].DeallocOp? && SuppliedBelow(ops, i)
    ensures var h, ptr := hs[i], ops[i].ptr;
            && ptr in h.live
            && Route(h.mem, ptr, h.live[ptr].size) == FreeFor(h.live[ptr].origin)
            && (h.live[ptr].size <= PAGE_THRESHOLD ==> LoadTag(h.mem, ptr - TAG_SIZE) in {TAG_KMALLOC, TAG_PMM_PAGE})
  {
    hide Inv, Route, LoadTag, LeBytes, Apply;
    HistoriesKeep(hs, ops, i);
    assert Legal(hs[i], ops[i]);
    RouteIsOrigin(hs[i], ops[i].ptr);
  }

  /** Live client blocks never overlap. */
  lemma ClientBlocksApart(h: Heap, p: int, q: int)
    requires Inv(h) && p in h.live && q in h.live && p != q
    ensures Apart(p, h.live[p].size, q, h.live[q].size)
  {
    hide LeBytes, LoadTag, StoreTag, DivCeil, LiveOk, NothingLeaked;
    PointerInside(h, p);
    PointerInside(h, q);
    assert !SameBacking(h.live[p].origin, h.live[q].origin);
  }

  // ---- the allocator as it runs --------------------------------------------------------

  class KernelAllocator {
    var memory: Memory
    var kmallocs: map<int, nat>
    var pages: map<int, nat>
    ghost var live: map<int, Block>

    ghost function State(): Heap
      reads this
    {
      Heap(memory, kmallocs, pages, live)
    }

    ghost predicate Valid()
      reads this
    {
      Inv(State())
    }

    constructor ()
      ensures Valid() && State() == EMPTY
    {
      memory, kmallocs, pages, live := map[], map[], map[], map[];
    }

    /** The slab allocator's free: only for a block it handed out and still holds. */
    method KFree(raw: int)
      requires raw in kmallocs
      modifies this`kmallocs
      ensures kmallocs == old(kmallocs) - {raw}
    {
      kmallocs := kmallocs - {raw};
    }

    method PmmFreePage(phys: int)
      requires phys in pages && pages[phys] == 1
      modifies this`pages
      ensures pages == old(pages) - {phys}
    {
      pages := pages - {phys};
    }

    method PmmFreePages(phys: int, count: nat)
      requires phys in pages && pages[phys] == count
      modifies this`pages
      ensures pages == old(pages) - {phys}
    {
      pages := pages - {phys};
    }

    method WriteTag(a: int, tag: seq<Byte>)
      requires |tag| == TAG_SIZE
      modifies this`memory
      ensures memory == StoreTag(old(memory), a, tag)
    {
      memory := StoreTag(memory, a, tag);
    }

    /** `alloc`: `raw` and `phys` are what the backing allocators answer if they are asked. */
    method Alloc(size: nat, raw: nat, phys: nat) returns (ptr: int)
      requires Valid() && Answers(State(), size, raw, phys)
      modifies this
      ensures (State(), ptr) == AllocStep(old(State()), size, raw, phys)
      ensures ptr != 0 && (Valid() <==> Supplied(size, raw, phys))
      ensures ptr in live && live[ptr].size == size && (Valid() ==> ptr !in old(live))
    {
      hide Inv, LeBytes, StoreTag, Answers;
      AllocKeepsIff(State(), size, raw, phys);
      if size <= PAGE_THRESHOLD && raw != 0 {
        kmallocs := kmallocs[raw := size + TAG_SIZE];
        WriteTag(raw, TAG_KMALLOC);
        live := live[raw + TAG_SIZE := Block(size, Kmalloc(raw))];
        return raw + TAG_SIZE;
      }
      ptr := AllocPages(size, phys);
    }

    /** The page path, taken for large sizes and when the slab allocator has nothing. */
    method AllocPages(size: nat, phys: nat) returns (ptr: int)
      modifies this
      ensures (State(), ptr) == AllocStep(old(State()), size, 0, phys)
    {
      hide LeBytes, StoreTag, DivCeil;
      var tagOffset := if size <= PAGE_THRESHOLD then TAG_SIZE else 0;
      var pagesNeeded := DivCeil(size + tagOffset, PAGE);
      var tag := if pagesNeeded == 1 then TAG_PMM_PAGE else TAG_PMM_PAGES;
      if phys != 0 {
        pages := pages[phys := pagesNeeded];
      }
      var virt := phys + KERNEL_BASE;
      if tagOffset > 0 {
        WriteTag(virt, tag);
        ptr := virt + TAG_SIZE;
      } else {
        ptr := virt;
      }
      live := live[ptr := Block(size, Pages(phys, pagesNeeded))];
    }

    /** `dealloc` of a live pointer with its own layout, or of null. */
    method Dealloc(ptr: int, size: nat)
      requires Valid()
      requires ptr != 0 ==> ptr in live && live[ptr].size == size
      modifies this
      ensures Valid()
      ensures ptr == 0 ==> State() == old(State())
      ensures ptr != 0 ==> Removes(old(State()), State(), ptr)
    {
      if ptr == 0 {
        return;
      }
      ghost var h := State();
      if size <= PAGE_THRESHOLD {
        FreeTagged(ptr);
      } else {
        FreeUntagged(ptr, size);
      }
      live := live - {ptr};
      hide Inv, Removes;
      RemovedKeeps(h, State(), ptr);
    }

    /** A small block goes where its tag says; the multi-page and the unknown tag never occur. */
    method FreeTagged(ptr: int)
      requires Valid() && ptr in live && live[ptr].size <= PAGE_THRESHOLD
      modifies this`kmallocs, this`pages
      ensures Removes(old(State()), State().(live := live - {ptr}), ptr)
    {
      FreeTarget(State(), ptr);
      hide Inv, LeBytes, LoadTag;
      var raw := ptr - TAG_SIZE;
      var tag := LoadTag(memory, raw);
      if tag == TAG_KMALLOC {
        KFree(raw);
      } else if tag == TAG_PMM_PAGE {
        PmmFreePage(raw - KERNEL_BASE);
      } else {
        assert false;
      }
    }

    /** A large block goes back by its page count. */
    method FreeUntagged(ptr: int, size: nat)
      requires Valid() && ptr in live && live[ptr].size == size > PAGE_THRESHOLD
      modifies this`pages
      ensures Removes(old(State()), State().(live := live - {ptr}), ptr)
    {
      FreeTarget(State(), ptr);
      hide Inv, LeBytes, LoadTag, DivCeil;
      var count := DivCeil(size, PAGE);
      if count <= 1 {
        PmmFreePage(ptr - KERNEL_BASE);
      } else {
        PmmFreePages(ptr - KERNEL_BASE, count);
      }
    }
  }
}
