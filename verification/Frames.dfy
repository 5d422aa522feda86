/** Counted physical frames: frame.rs handles, vmspace.rs leaf entries, and the page counters of mm/pmm.rs. */
module Frames {
  import opened Machine

  const COUNT_MAX: nat := 255
  const PAGE_SIZE: nat := 4096
  const MAX_BUDDY_ORDER: nat := 9
  const USER_VADDR_MAX: nat := 0x7FFF_FFFF_FFFF

  /** A handle to `2^order` pages starting at page number `page`. */
  datatype Frame = Frame(page: nat, order: nat)

  /** A page-table entry's place: the address space and the virtual page. */
  datatype Slot = Slot(space: nat, page: nat)

  /** Every address of one virtual page selects the same entry. */
  function SlotOf(space: nat, va: nat): Slot {
    Slot(space, va / PAGE_SIZE)
  }

  /** The parts of a leaf entry that matter here. */
  datatype Entry = Entry(page: nat, present: bool, user: bool) {
    /** Tearing the entry down gives up a hold on its page. */
    predicate Counted() {
      present && user
    }
  }

  datatype Flags = Flags(present: bool, user: bool)

  /** An entry nobody wrote, or that was cleared. */
  const ZERO_ENTRY := Entry(0, false, false)

  /**
   * Page counters, live handles and page-table entries, with a ledger of what was
   * handed out and what was given back.
   */
  datatype World = World(
    total: nat,
    counts: map<nat, nat>,
    handles: multiset<Frame>,
    entries: map<Slot, Entry>,
    handedOut: multiset<Frame>,
    returned: multiset<Frame>)

  function Count(w: World, p: nat): nat {
    if p in w.counts then w.counts[p] else 0
  }

  function EntryAt(entries: map<Slot, Entry>, slot: Slot): Entry {
    if slot in entries then entries[slot] else ZERO_ENTRY
  }

  /** Zero entries are not kept. */
  function Put(entries: map<Slot, Entry>, slot: Slot, e: Entry): map<Slot, Entry> {
    if e == ZERO_ENTRY then entries - {slot} else entries[slot := e]
  }

  predicate Managed(w: World, p: nat) {
    0 < p < w.total
  }

  /** `frame_inc`. */
  function FrameInc(w: World, p: nat): (World, bool) {
    var cur := Count(w, p);
    if !Managed(w, p) || cur == 0 || cur == COUNT_MAX then (w, false)
    else (w.(counts := w.counts[p := cur + 1]), true)
  }

  /** `frame_dec`: true exactly when the last holder went away. */
  function FrameDec(w: World, p: nat): (World, bool) {
    var cur := Count(w, p);
    if !Managed(w, p) || cur == 0 then (w, false)
    else (w.(counts := w.counts[p := cur - 1]), cur == 1)
  }

  function Return(w: World, f: Frame): World {
    w.(returned := w.returned + multiset{f})
  }

  // ---- the operations --------------------------------------------------------------

  function AllocPage(w: World, p: nat): World {
    var f := Frame(p, 0);
    w.(counts := w.counts[p := 1], handles := w.handles + multiset{f}, handedOut := w.handedOut + multiset{f})
  }

  function AllocBlock(w: World, f: Frame): World {
    w.(handles := w.handles + multiset{f}, handedOut := w.handedOut + multiset{f})
  }

  /** `Clone`; None is the failed assertion. */
  function CloneFrame(w: World, f: Frame): Option<World> {
    var (w', ok) := FrameInc(w, f.page);
    if ok then Some(w'.(handles := w'.handles + multiset{f})) else None
  }

  /** `Drop`. */
  function DropFrame(w: World, f: Frame): World {
    var w1 := w.(handles := w.handles - multiset{f});
    if f.order == 0 then
      var (w2, last) := FrameDec(w1, f.page);
      if last then Return(w2, f) else w2
    else if f.order <= MAX_BUDDY_ORDER then Return(w1, f)
    else w1
  }

  /** `VmSpace::map`; `reached` is whether the page-table walk got to an entry. The answer of `inc_ref` is ignored. */
  function MapFrame(w: World, space: nat, va: nat, f: Frame, flags: Flags, reached: bool): World {
    if va > USER_VADDR_MAX then w
    else
      var e := Entry(f.page, flags.present, flags.user);
      var w1 := if reached then w.(entries := Put(w.entries, SlotOf(space, va), e)) else w;
      FrameInc(w1, f.page).0
  }

  /** `VmSpace::unmap`: only a PRESENT and USER entry gives up a hold on its page. */
  function Unmap(w: World, space: nat, va: nat): World {
    var slot := SlotOf(space, va);
    if va > USER_VADDR_MAX || slot !in w.entries then w
    else
      var e := w.entries[slot];
      var w1 := w.(entries := w.entries - {slot});
      if !e.Counted() then w1
      else
        var (w2, last) := FrameDec(w1, e.page);
        if last then Return(w2, Frame(e.page, 0)) else w2
  }

  /**
   * `VmSpace::protect` rewrites the flags of the entry the walk reaches, whether
   * or not it was present.
   */
  function Protect(w: World, space: nat, va: nat, flags: Flags, reached: bool): World {
    var slot := SlotOf(space, va);
    if va > USER_VADDR_MAX || !reached then w
    else w.(entries := Put(w.entries, slot, EntryAt(w.entries, slot).(present := flags.present, user := flags.user)))
  }

  // ---- holders and the invariant ------------------------------------------------------

  /** The entries that hold page `p`. */
  function LeavesOf(entries: map<Slot, Entry>, p: nat): set<Slot> {
    set s | s in entries && entries[s].Counted() && entries[s].page == p
  }

  function Holders(w: World, p: nat): nat {
    w.handles[Frame(p, 0)] + |LeavesOf(w.entries, p)|
  }

  predicate InBlock(f: Frame, p: nat) {
    f.page <= p < f.page + Pow2(f.order)
  }

  ghost predicate PageOk(w: World, p: nat) {
    && Count(w, p) == Holders(w, p) <= COUNT_MAX
    && w.handedOut[Frame(p, 0)] == w.returned[Frame(p, 0)] + (if Holders(w, p) > 0 then 1 else 0)
    && (Holders(w, p) > 0 ==> Managed(w, p))
  }

  ghost predicate BlockOk(w: World, f: Frame) {
    && w.handles[f] <= 1
    && (w.handles[f] == 1 ==> forall p :: InBlock(f, p) ==> Count(w, p) == 0)
    && (f.order <= MAX_BUDDY_ORDER ==> w.handedOut[f] == w.returned[f] + w.handles[f])
    && (f.order > MAX_BUDDY_ORDER ==> w.returned[f] == 0)
  }

  ghost predicate Inv(w: World) {
    && (forall p: nat :: PageOk(w, p))
    && (forall f: Frame :: f.order > 0 ==> BlockOk(w, f))
  }

  ghost predicate Unheld(w: World, p: nat) {
    Count(w, p) == 0 && forall f: Frame :: f.order > 0 && f in w.handles ==> !InBlock(f, p)
  }

  // ---- counting entries ---------------------------------------------------------------

  /** What one entry adds to the holders of `p`. */
  function Weight(e: Entry, p: nat): nat {
    if e.Counted() && e.page == p then 1 else 0
  }

  lemma LeavesWithout(entries: map<Slot, Entry>, slot: Slot, p: nat)
    ensures |LeavesOf(entries, p)| == |LeavesOf(entries - {slot}, p)| + Weight(EntryAt(entries, slot), p)
  {
    var rest := LeavesOf(entries - {slot}, p);
    if Weight(EntryAt(entries, slot), p) == 1 {
      assert LeavesOf(entries, p) == rest + {slot};
    } else {
      assert LeavesOf(entries, p) == rest;
    }
  }

  /** Rewriting one entry moves the holders of a page by what the entry adds now and added before. */
  lemma LeavesAfterPut(entries: map<Slot, Entry>, slot: Slot, e: Entry, p: nat)
    ensures |LeavesOf(Put(entries, slot, e), p)| + Weight(EntryAt(entries, slot), p) ==
            |LeavesOf(entries, p)| + Weight(e, p)
  {
    hide LeavesOf;
    var after := Put(entries, slot, e);
    assert after - {slot} == entries - {slot};
    LeavesWithout(entries, slot, p);
    LeavesWithout(after, slot, p);
  }

  // ---- each operation keeps the invariant ------------------------------------------------

  lemma AllocPageKeeps(w: World, p: nat)
    requires Inv(w) && Managed(w, p) && Unheld(w, p)
    ensures Inv(AllocPage(w, p))
  {
    hide LeavesOf, Pow2;
    var w' := AllocPage(w, p);
    forall q: nat
      ensures PageOk(w', q)
    {
      assert PageOk(w, q);
    }
    forall f: Frame | f.order > 0
      ensures BlockOk(w', f)
    {
      assert BlockOk(w, f);
    }
  }

  lemma AllocBlockKeeps(w: World, f: Frame)
    requires Inv(w) && f.order > 0 && f !in w.handles && (forall p :: InBlock(f, p) ==> Unheld(w, p))
    ensures Inv(AllocBlock(w, f))
  {
    hide LeavesOf, Pow2;
    var w' := AllocBlock(w, f);
    forall q: nat
      ensures PageOk(w', q)
    {
      assert PageOk(w, q);
    }
    forall g: Frame | g.order > 0
      ensures BlockOk(w', g)
    {
      assert BlockOk(w, g);
    }
  }

  /** A page counter going from one positive value to another, or to zero, leaves every block untouched. */
  lemma BlocksUnaffected(w: World, w': World)
    requires Inv(w)
    requires forall f: Frame :: f.order > 0 ==>
      w'.handles[f] == w.handles[f] && w'.handedOut[f] == w.handedOut[f] && w'.returned[f] == w.returned[f]
    requires forall p: nat :: Count(w, p) == 0 ==> Count(w', p) == 0
    ensures forall f: Frame :: f.order > 0 ==> BlockOk(w', f)
  {
    hide Pow2;
    forall f: Frame | f.order > 0
      ensures BlockOk(w', f)
    {
      assert BlockOk(w, f);
    }
  }

  lemma ClonePossible(w: World, f: Frame)
    requires Inv(w) && f in w.handles
    ensures f.order > 0 ==> CloneFrame(w, f).None?
    ensures f.order == 0 ==> (CloneFrame(w, f).Some? <==> Count(w, f.page) < COUNT_MAX)
  {
    assert PageOk(w, f.page);
    if f.order > 0 {
      assert BlockOk(w, f);
      assert InBlock(f, f.page);
    }
  }

  lemma CloneKeeps(w: World, f: Frame)
    requires Inv(w) && f in w.handles && CloneFrame(w, f).Some?
    ensures f.order == 0 && Inv(CloneFrame(w, f).value)
  {
    hide LeavesOf, Pow2;
    ClonePossible(w, f);
    var w' := CloneFrame(w, f).value;
    forall q: nat
      ensures PageOk(w', q)
    {
      assert PageOk(w, q);
    }
    assert PageOk(w, f.page);
    BlocksUnaffected(w, w');
  }

  lemma DropPageKeeps(w: World, f: Frame)
    requires Inv(w) && f in w.handles && f.order == 0
    ensures Inv(DropFrame(w, f))
  {
    hide LeavesOf, Pow2;
    var w' := DropFrame(w, f);
    assert PageOk(w, f.page);
    forall q: nat
      ensures PageOk(w', q)
    {
      assert PageOk(w, q);
    }
    BlocksUnaffected(w, w');
  }

  lemma DropBlockKeeps(w: World, f: Frame)
    requires Inv(w) && f in w.handles && f.order > 0
    ensures Inv(DropFrame(w, f))
  {
    hide LeavesOf, Pow2;
    var w' := DropFrame(w, f);
    forall q: nat
      ensures PageOk(w', q)
    {
      assert PageOk(w, q);
    }
    forall g: Frame | g.order > 0
      ensures BlockOk(w', g)
    {
      assert BlockOk(w, g);
      assert forall p :: InBlock(g, p) ==> Count(w', p) == Count(w, p);
    }
  }

  lemma DropKeeps(w: World, f: Frame)
    requires Inv(w) && f in w.handles
    ensures Inv(DropFrame(w, f))
  {
    if f.order == 0 {
      DropPageKeeps(w, f);
    } else {
      DropBlockKeeps(w, f);
    }
  }

  lemma UnmapKeeps(w: World, space: nat, va: nat)
    requires Inv(w)
    ensures Inv(Unmap(w, space, va))
  {
    hide LeavesOf, Pow2;
    var w', slot := Unmap(w, space, va), SlotOf(space, va);
    if va <= USER_VADDR_MAX && slot in w.entries {
      var page := w.entries[slot].page;
      assert PageOk(w, page);
      forall q: nat
        ensures PageOk(w', q)
      {
        assert PageOk(w, q);
        LeavesWithout(w.entries, slot, q);
      }
      LeavesWithout(w.entries, slot, page);
      BlocksUnaffected(w, w');
    }
  }

  /**
   * The exact condition on `map`: while the counter has room the new entry must
   * hold the page and replace none that did; once the counter refuses, no hold
   * may appear, vanish or move.
   */
  predicate MapBalances(w: World, slot: Slot, f: Frame, flags: Flags, reached: bool) {
    var was, now := EntryAt(w.entries, slot), Entry(f.page, flags.present, flags.user);
    if f.order == 0 && Count(w, f.page) < COUNT_MAX then reached && now.Counted() && !was.Counted()
    else !reached || (was.Counted() == now.Counted() && (now.Counted() ==> was.page == f.page))
  }

  /** `map` counts exactly when its frame is a single page below the limit. */
  lemma MapCount(w: World, space: nat, va: nat, f: Frame, flags: Flags, reached: bool, q: nat)
    requires Inv(w) && f in w.handles && va <= USER_VADDR_MAX
    ensures Count(MapFrame(w, space, va, f, flags, reached), q) ==
            Count(w, q) + if q == f.page && f.order == 0 && Count(w, f.page) < COUNT_MAX then 1 else 0
  {
    hide LeavesOf, Pow2;
    ClonePossible(w, f);
    assert PageOk(w, f.page);
  }

  lemma MapHolders(w: World, space: nat, va: nat, f: Frame, flags: Flags, reached: bool, q: nat)
    requires va <= USER_VADDR_MAX
    ensures var was, now := EntryAt(w.entries, SlotOf(space, va)), Entry(f.page, flags.present, flags.user);
            Holders(MapFrame(w, space, va, f, flags, reached), q) ==
            Holders(w, q) + if reached then Weight(now, q) - Weight(was, q) else 0
  {
    hide LeavesOf, Put;
    if reached {
      LeavesAfterPut(w.entries, SlotOf(space, va), Entry(f.page, flags.present, flags.user), q);
    }
  }

  lemma MapBalancedKeeps(w: World, space: nat, va: nat, f: Frame, flags: Flags, reached: bool)
    requires Inv(w) && f in w.handles && va <= USER_VADDR_MAX
    requires MapBalances(w, SlotOf(space, va), f, flags, reached)
    ensures Inv(MapFrame(w, space, va, f, flags, reached))
  {
    hide Holders, Pow2, Put;
    var w' := MapFrame(w, space, va, f, flags, reached);
    assert PageOk(w, f.page);
    if f.order == 0 {
      HandleHolds(w, f);
    }
    forall q: nat
      ensures PageOk(w', q)
    {
      assert PageOk(w, q);
      MapCount(w, space, va, f, flags, reached, q);
      MapHolders(w, space, va, f, flags, reached, q);
    }
    BlocksUnaffected(w, w');
  }

  lemma HandleHolds(w: World, f: Frame)
    requires f in w.handles && f.order == 0
    ensures Holders(w, f.page) > 0
  {
    assert f == Frame(f.page, 0);
  }

  /** Any other map unbalances the page it maps or the page it displaces. */
  lemma MapUnbalances(w: World, space: nat, va: nat, f: Frame, flags: Flags, reached: bool) returns (p: nat)
    requires Inv(w) && f in w.handles && va <= USER_VADDR_MAX
    requires !MapBalances(w, SlotOf(space, va), f, flags, reached)
    ensures var w' := MapFrame(w, space, va, f, flags, reached); Count(w', p) != Holders(w', p)
  {
    hide Holders, LeavesOf, Pow2, Put, MapFrame;
    var was := EntryAt(w.entries, SlotOf(space, va));
    var counts := f.order == 0 && Count(w, f.page) < COUNT_MAX;
    var displaced := reached && was.Counted() && was.page != f.page;
    p := if displaced && (counts || !(flags.present && flags.user)) then was.page else f.page;
    assert PageOk(w, p);
    MapCount(w, space, va, f, flags, reached, p);
    MapHolders(w, space, va, f, flags, reached, p);
  }

  /** `map` keeps the books exactly when it is refused, or balances. */
  lemma MapKeepsIff(w: World, space: nat, va: nat, f: Frame, flags: Flags, reached: bool)
    requires Inv(w) && f in w.handles
    ensures Inv(MapFrame(w, space, va, f, flags, reached)) <==>
            va > USER_VADDR_MAX || MapBalances(w, SlotOf(space, va), f, flags, reached)
  {
    hide MapBalances;
    if va <= USER_VADDR_MAX {
      if MapBalances(w, SlotOf(space, va), f, flags, reached) {
        MapBalancedKeeps(w, space, va, f, flags, reached);
      } else {
        var p := MapUnbalances(w, space, va, f, flags, reached);
        var w' := MapFrame(w, space, va, f, flags, reached);
        assert Inv(w') ==> PageOk(w', p);
      }
    }
  }

  /** The exact condition on `protect`: the entry holds its page after it exactly if it did before. */
  predicate ProtectBalances(w: World, slot: Slot, flags: Flags, reached: bool) {
    !reached || (EntryAt(w.entries, slot).Counted() <==> flags.present && flags.user)
  }

  lemma ProtectHolders(w: World, space: nat, va: nat, flags: Flags, reached: bool, q: nat)
    requires va <= USER_VADDR_MAX
    ensures var was := EntryAt(w.entries, SlotOf(space, va));
            Holders(Protect(w, space, va, flags, reached), q) ==
            Holders(w, q) + if reached then Weight(was.(present := flags.present, user := flags.user), q) - Weight(was, q) else 0
  {
    hide LeavesOf, Put;
    if reached {
      var slot := SlotOf(space, va);
      LeavesAfterPut(w.entries, slot, EntryAt(w.entries, slot).(present := flags.present, user := flags.user), q);
    }
  }

  lemma ProtectKeepsIff(w: World, space: nat, va: nat, flags: Flags, reached: bool)
    requires Inv(w)
    ensures Inv(Protect(w, space, va, flags, reached)) <==>
            va > USER_VADDR_MAX || ProtectBalances(w, SlotOf(space, va), flags, reached)
  {
    hide Holders, Pow2, Put;
    var w' := Protect(w, space, va, flags, reached);
    if va <= USER_VADDR_MAX {
      if ProtectBalances(w, SlotOf(space, va), flags, reached) {
        forall q: nat
          ensures PageOk(w', q)
        {
          assert PageOk(w, q);
          ProtectHolders(w, space, va, flags, reached, q);
        }
        BlocksUnaffected(w, w');
      } else {
        var p := EntryAt(w.entries, SlotOf(space, va)).page;
        assert PageOk(w, p);
        ProtectHolders(w, space, va, flags, reached, p);
        assert Inv(w') ==> PageOk(w', p);
      }
    }
  }

  // ---- what each operation does -------------------------------------------------------------

  /** A clone adds one holder, to its own page, and nothing else. */
  lemma CloneEffects(w: World, f: Frame, q: nat)
    requires Inv(w) && f in w.handles && CloneFrame(w, f).Some?
    ensures var w', more := CloneFrame(w, f).value, if f.page == q then 1 else 0;
            && w'.handles == w.handles + multiset{f} && w'.entries == w.entries
            && w'.handedOut == w.handedOut && w'.returned == w.returned
            && Count(w', q) == Count(w, q) + more && Holders(w', q) == Holders(w, q) + more
  {
    hide LeavesOf, Pow2;
    ClonePossible(w, f);
  }

  /**
   * A drop gives up exactly its own handle. The page goes back when that was
   * the last hold on it, a buddy block always, a larger one never.
   */
  lemma DropEffects(w: World, f: Frame, q: nat)
    requires Inv(w) && f in w.handles
    ensures var w', less := DropFrame(w, f), if f == Frame(q, 0) then 1 else 0;
            && w'.handles == w.handles - multiset{f} && w'.entries == w.entries && w'.handedOut == w.handedOut
            && Holders(w', q) == Holders(w, q) - less && Count(w', q) == Count(w, q) - less
            && var back := if f.order == 0 then Holders(w, f.page) == 1 else f.order <= 9;
               w'.returned == w.returned + if back then multiset{f} else multiset{}
  {
    hide LeavesOf, Pow2;
    assert PageOk(w, f.page) && PageOk(w, q);
  }

  /** An unmap clears the entry of the address's page, and gives up the hold that entry had. */
  lemma UnmapEffects(w: World, space: nat, va: nat, q: nat)
    requires Inv(w)
    ensures var w', slot := Unmap(w, space, va), SlotOf(space, va);
            var was := EntryAt(w.entries, slot);
            if va > USER_VADDR_MAX then w' == w
            else
              && w'.handles == w.handles && w'.handedOut == w.handedOut
              && w'.entries == w.entries - {slot}
              && Holders(w', q) == Holders(w, q) - Weight(was, q) && Count(w', q) == Count(w, q) - Weight(was, q)
              && var back := was.Counted() && Holders(w, was.page) == 1;
                 w'.returned == w.returned + if back then multiset{Frame(was.page, 0)} else multiset{}
  {
    hide LeavesOf, Pow2;
    var slot := SlotOf(space, va);
    var was := EntryAt(w.entries, slot);
    assert PageOk(w, was.page) && PageOk(w, q);
    LeavesWithout(w.entries, slot, q);
    LeavesWithout(w.entries, slot, was.page);
    if slot !in w.entries {
      assert w.entries - {slot} == w.entries;
    }
  }

  /** A map writes the entry of the address's page, if the walk gets there, and touches no handle and no ledger. */
  lemma MapEffects(w: World, space: nat, va: nat, f: Frame, flags: Flags, reached: bool)
    ensures var w', slot := MapFrame(w, space, va, f, flags, reached), SlotOf(space, va);
            if va > USER_VADDR_MAX then w' == w
            else
              && w'.handles == w.handles && w'.handedOut == w.handedOut && w'.returned == w.returned
              && (forall other :: other != slot ==> EntryAt(w'.entries, other) == EntryAt(w.entries, other))
              && EntryAt(w'.entries, slot) ==
                 if reached then Entry(f.page, flags.present, flags.user) else EntryAt(w.entries, slot)
  {
  }

  /** A protect changes the flags of that entry and nothing else. */
  lemma ProtectEffects(w: World, space: nat, va: nat, flags: Flags, reached: bool)
    ensures var w', slot := Protect(w, space, va, flags, reached), SlotOf(space, va);
            && w' == w.(entries := w'.entries)
            && (forall other :: other != slot ==> EntryAt(w'.entries, other) == EntryAt(w.entries, other))
            && EntryAt(w'.entries, slot) ==
               if va > USER_VADDR_MAX || !reached then EntryAt(w.entries, slot)
               else Entry(EntryAt(w.entries, slot).page, flags.present, flags.user)
  {
  }

  // ---- whole runs ---------------------------------------------------------------------

  datatype Op =
    | NewPage(page: nat)
    | NewBlock(block: Frame)
    | Clone(frame: Frame)
    | Drop(frame: Frame)
    | Map(space: nat, va: nat, frame: Frame, flags: Flags, reached: bool)
    | UnmapAt(space: nat, va: nat)
    | ProtectAt(space: nat, va: nat, flags: Flags, reached: bool)

  /** The page allocator hands out only what nobody holds; handles are used while alive; a failed clone panics and ends the run. */
  ghost predicate Possible(w: World, op: Op) {
    match op
    case NewPage(p) => Managed(w, p) && Unheld(w, p)
    case NewBlock(f) => f.order > 0 && f !in w.handles && forall p :: InBlock(f, p) ==> Unheld(w, p)
    case Clone(f) => f in w.handles && CloneFrame(w, f).Some?
    case Drop(f) => f in w.handles
    case Map(_, _, f, _, _) => f in w.handles
    case UnmapAt(_, _) => true
    case ProtectAt(_, _, _, _) => true
  }

  /** Only `map` and `protect` can unbalance the books. */
  predicate Balanced(w: World, op: Op) {
    match op
    case Map(space, va, f, flags, reached) => va > USER_VADDR_MAX || MapBalances(w, SlotOf(space, va), f, flags, reached)
    case ProtectAt(space, va, flags, reached) => va > USER_VADDR_MAX || ProtectBalances(w, SlotOf(space, va), flags, reached)
    case _ => true
  }

  function Apply(w: World, op: Op): World {
    match op
    case NewPage(p) => AllocPage(w, p)
    case NewBlock(f) => AllocBlock(w, f)
    case Clone(f) => CloneFrame(w, f).UnwrapOr(w)
    case Drop(f) => DropFrame(w, f)
    case Map(space, va, f, flags, reached) => MapFrame(w, space, va, f, flags, reached)
    case UnmapAt(space, va) => Unmap(w, space, va)
    case ProtectAt(space, va, flags, reached) => Protect(w, space, va, flags, reached)
  }

  lemma ApplyKeepsIff(w: World, op: Op)
    requires Inv(w) && Possible(w, op)
    ensures Inv(Apply(w, op)) <==> Balanced(w, op)
  {
    hide Inv, AllocPage, AllocBlock, CloneFrame, DropFrame, MapFrame, Unmap, Protect, Unheld, InBlock, MapBalances, ProtectBalances;
    match op
    case NewPage(p) => AllocPageKeeps(w, p);
    case NewBlock(f) => AllocBlockKeeps(w, f);
    case Clone(f) => CloneKeeps(w, f);
    case Drop(f) => DropKeeps(w, f);
    case Map(space, va, f, flags, reached) => MapKeepsIff(w, space, va, f, flags, reached);
    case UnmapAt(space, va) => UnmapKeeps(w, space, va);
    case ProtectAt(space, va, flags, reached) => ProtectKeepsIff(w, space, va, flags, reached);
  }

  function Boot(total: nat): World {
    World(total, map[], multiset{}, map[], multiset{}, multiset{})
  }

  ghost predicate IsHistory(total: nat, ws: seq<World>, ops: seq<Op>) {
    && |ws| == |ops| + 1 && ws[0] == Boot(total)
    && forall i :: 0 <= i < |ops| ==> Possible(ws[i], ops[i]) && ws[i + 1] == Apply(ws[i], ops[i])
  }

  predicate BalancedBelow(ws: seq<World>, ops: seq<Op>, n: nat)
    requires n <= |ops| < |ws|
  {
    forall i :: 0 <= i < n ==> Balanced(ws[i], ops[i])
  }

  lemma BootOk(total: nat)
    ensures Inv(Boot(total))
  {
    hide LeavesOf;
    var w := Boot(total);
    forall p: nat
      ensures PageOk(w, p)
    {
      NoLeaves(p);
    }
  }

  lemma NoLeaves(p: nat)
    ensures LeavesOf(map[], p) == {}
  {
  }

  /** Over every run of balanced steps: each counter is the number of live handles plus holding entries, and the ledger balances. */
  lemma {:induction false} HistoriesKeep(total: nat, ws: seq<World>, ops: seq<Op>, i: nat)
    requires IsHistory(total, ws, ops) && i < |ws| && BalancedBelow(ws, ops, i)
    ensures Inv(ws[i])
  {
    hide Inv, Possible, Apply, Boot, Balanced;
    if i == 0 {
      BootOk(total);
    } else {
      HistoriesKeep(total, ws, ops, i - 1);
      ApplyKeepsIff(ws[i - 1], ops[i - 1]);
    }
  }

  /** Over every run at all: the books stay right throughout exactly when every `map` and `protect` balances. */
  lemma HistoriesKeepIff(total: nat, ws: seq<World>, ops: seq<Op>)
    requires IsHistory(total, ws, ops)
    ensures (forall i :: 0 <= i < |ws| ==> Inv(ws[i])) <==> BalancedBelow(ws, ops, |ops|)
  {
    hide Inv, Possible, Apply, Boot, Balanced;
    if BalancedBelow(ws, ops, |ops|) {
      forall i | 0 <= i < |ws|
        ensures Inv(ws[i])
      {
        HistoriesKeep(total, ws, ops, i);
      }
    } else {
      var i :| 0 <= i < |ops| && !Balanced(ws[i], ops[i]);
      if Inv(ws[i]) {
        ApplyKeepsIff(ws[i], ops[i]);
        assert !Inv(ws[i + 1]);
      }
    }
  }

  lemma LedgerSteps(w: World, op: Op, f: Frame)
    ensures Apply(w, op).handedOut[f] ==
            w.handedOut[f] + (if (op == NewPage(f.page) && f.order == 0) || op == NewBlock(f) then 1 else 0)
  {
    hide Put, LeavesOf;
  }

  /** At every step a page goes back exactly when its last holder lets go, once. */
  lemma ReturnedExactlyAtZero(total: nat, ws: seq<World>, ops: seq<Op>, i: nat, p: nat)
    requires IsHistory(total, ws, ops) && i < |ops| && BalancedBelow(ws, ops, i + 1)
    ensures var w, w', f := ws[i], ws[i + 1], Frame(p, 0);
            w'.returned[f] == w.returned[f] + (if Holders(w, p) > 0 && Holders(w', p) == 0 then 1 else 0)
  {
    HistoriesKeep(total, ws, ops, i);
    HistoriesKeep(total, ws, ops, i + 1);
    hide Apply, LeavesOf, Balanced;
    assert PageOk(ws[i], p) && PageOk(ws[i + 1], p);
    LedgerSteps(ws[i], ops[i], Frame(p, 0));
    assert Possible(ws[i], ops[i]);
    if ops[i] == NewPage(p) {
      NewPageHeld(ws[i], p);
    }
  }

  lemma NewPageHeld(w: World, p: nat)
    ensures Holders(Apply(w, NewPage(p)), p) > 0
  {
    HandleHolds(AllocPage(w, p), Frame(p, 0));
  }

  /** A block has at most one handle for its whole life, is never cloned, and goes back once, on that handle's drop. */
  lemma BlocksReturnedOnce(total: nat, ws: seq<World>, ops: seq<Op>, i: nat, f: Frame)
    requires IsHistory(total, ws, ops) && i < |ws| && BalancedBelow(ws, ops, i) && 0 < f.order <= MAX_BUDDY_ORDER
    ensures ws[i].handles[f] <= 1
    ensures ws[i].handedOut[f] == ws[i].returned[f] + ws[i].handles[f]
    ensures f in ws[i].handles ==> CloneFrame(ws[i], f).None?
  {
    HistoriesKeep(total, ws, ops, i);
    assert BlockOk(ws[i], f);
    if f in ws[i].handles {
      ClonePossible(ws[i], f);
    }
  }

  /** Once nobody holds them, every page and every buddy block handed out has been returned. */
  lemma EverythingReturned(total: nat, ws: seq<World>, ops: seq<Op>, i: nat, f: Frame)
    requires IsHistory(total, ws, ops) && i < |ws| && BalancedBelow(ws, ops, i) && f.order <= MAX_BUDDY_ORDER
    requires f !in ws[i].handles
    requires f.order == 0 ==> forall slot :: slot in ws[i].entries ==> Weight(ws[i].entries[slot], f.page) == 0
    ensures ws[i].handedOut[f] == ws[i].returned[f]
  {
    HistoriesKeep(total, ws, ops, i);
    if f.order == 0 {
      assert PageOk(ws[i], f.page);
      assert LeavesOf(ws[i].entries, f.page) == {};
    } else {
      assert BlockOk(ws[i], f);
    }
  }

  const USER_PAGE := Flags(true, true)

  // ---- how the u8 counter runs out -----------------------------------------------------

  /** One page and `n` clones of its handle. */
  function Cloned(total: nat, p: nat, n: nat): World {
    if n == 0 then AllocPage(Boot(total), p)
    else CloneFrame(Cloned(total, p, n - 1), Frame(p, 0)).UnwrapOr(Boot(total))
  }

  lemma {:induction false} ClonedCount(total: nat, p: nat, n: nat)
    requires 0 < p < total && n < COUNT_MAX
    ensures var w := Cloned(total, p, n);
            Inv(w) && Count(w, p) == n + 1 && w.entries == map[] && Frame(p, 0) in w.handles && w.total == total
  {
    hide Inv, LeavesOf;
    var f := Frame(p, 0);
    if n == 0 {
      BootOk(total);
      AllocPageKeeps(Boot(total), p);
    } else {
      ClonedCount(total, p, n - 1);
      var w := Cloned(total, p, n - 1);
      ClonePossible(w, f);
      CloneKeeps(w, f);
    }
  }

  /**
   * 254 clones fill the counter. The next clone panics, but the next map is
   * accepted without being counted: the page then has 256 holders and a count
   * of 255, so it is given back one holder too early.
   */
  lemma SaturatedMapIsUncounted(total: nat, p: nat, space: nat, va: nat)
    requires 0 < p < total && va <= USER_VADDR_MAX
    ensures var w, f := Cloned(total, p, 254), Frame(p, 0);
            var w' := MapFrame(w, space, va, f, USER_PAGE, true);
            && CloneFrame(w, f).None?
            && Count(w', p) == 255 && Holders(w', p) == 256
            && !Inv(w')
  {
    hide LeavesOf, Cloned;
    ClonedCount(total, p, 254);
    var w, f := Cloned(total, p, 254), Frame(p, 0);
    ClonePossible(w, f);
    assert PageOk(w, p);
    MapCount(w, space, va, f, USER_PAGE, true, p);
    MapHolders(w, space, va, f, USER_PAGE, true, p);
    MapKeepsIff(w, space, va, f, USER_PAGE, true);
  }

  /**
   * `map` checks neither alignment nor occupancy: mapping a page again through
   * any address of the same virtual page rewrites one entry and counts it
   * twice, so the page can never go back.
   */
  lemma RemapCountsTwice(w: World, f: Frame, space: nat, va: nat, va': nat)
    requires Inv(w) && f in w.handles && f.order == 0 && Count(w, f.page) < COUNT_MAX - 1
    requires va <= USER_VADDR_MAX && va' <= USER_VADDR_MAX && va / PAGE_SIZE == va' / PAGE_SIZE
    requires SlotOf(space, va) !in w.entries
    ensures var w1 := MapFrame(w, space, va, f, USER_PAGE, true);
            var w2 := MapFrame(w1, space, va', f, USER_PAGE, true);
            && Inv(w1) && w2.entries == w1.entries
            && Count(w2, f.page) == Holders(w2, f.page) + 1
            && !Inv(w2)
  {
    hide LeavesOf, Holders;
    var w1 := MapFrame(w, space, va, f, USER_PAGE, true);
    MapKeepsIff(w, space, va, f, USER_PAGE, true);
    MapCount(w, space, va, f, USER_PAGE, true, f.page);
    MapKeepsIff(w1, space, va', f, USER_PAGE, true);
    MapCount(w1, space, va', f, USER_PAGE, true, f.page);
    MapHolders(w1, space, va', f, USER_PAGE, true, f.page);
    assert PageOk(w1, f.page);
  }

  /** A page that was not present stays so exactly when `protect` is refused, finds no table, or is asked for absence. */
  lemma ProtectSkipsIff(w: World, space: nat, va: nat, flags: Flags, reached: bool)
    requires !EntryAt(w.entries, SlotOf(space, va)).present
    ensures !EntryAt(Protect(w, space, va, flags, reached).entries, SlotOf(space, va)).present <==>
            va > USER_VADDR_MAX || !reached || !flags.present
  {
  }

  /** And its entry is left alone exactly when, besides, the user bit asked for is the one it has. */
  lemma ProtectIdleIff(w: World, space: nat, va: nat, flags: Flags, reached: bool)
    ensures var slot, w' := SlotOf(space, va), Protect(w, space, va, flags, reached);
            && (forall other :: other != slot ==> EntryAt(w'.entries, other) == EntryAt(w.entries, other))
            && (EntryAt(w'.entries, slot) == EntryAt(w.entries, slot) <==>
                  va > USER_VADDR_MAX || !reached
                  || flags == Flags(EntryAt(w.entries, slot).present, EntryAt(w.entries, slot).user))
  {
  }

  /**
   * Any `protect` that asks for presence, at an address never mapped in a page
   * table that exists, maps physical page zero, for user code if asked to; the
   * counters notice only the latter.
   */
  lemma ProtectInventsEntry(w: World, space: nat, va: nat, user: bool)
    requires Inv(w) && va <= USER_VADDR_MAX && SlotOf(space, va) !in w.entries
    ensures var w' := Protect(w, space, va, Flags(true, user), true);
            EntryAt(w'.entries, SlotOf(space, va)) == Entry(0, true, user) && (Inv(w') <==> !user)
  {
    ProtectKeepsIff(w, space, va, Flags(true, user), true);
  }

  // ---- the operations as they run --------------------------------------------------------

  class FrameSystem {
    const total: nat
    var counts: map<nat, nat>
    var entries: map<Slot, Entry>
    ghost var handles: multiset<Frame>
    ghost var handedOut: multiset<Frame>
    ghost var returned: multiset<Frame>

    ghost function State(): World
      reads this
    {
      World(total, counts, handles, entries, handedOut, returned)
    }

    constructor (total: nat)
      ensures State() == Boot(total) && Inv(State())
    {
      this.total := total;
      counts, entries := map[], map[];
      handles, handedOut, returned := multiset{}, multiset{}, multiset{};
      new;
      BootOk(total);
    }

    method IncCount(p: nat) returns (ok: bool)
      modifies this`counts
      ensures (State(), ok) == FrameInc(old(State()), p)
    {
      var cur := if p in counts then counts[p] else 0;
      if p == 0 || p >= total || cur == 0 || cur == COUNT_MAX {
        return false;
      }
      counts := counts[p := cur + 1];
      ok := true;
    }

    method DecCount(p: nat) returns (last: bool)
      modifies this`counts
      ensures (State(), last) == FrameDec(old(State()), p)
    {
      var cur := if p in counts then counts[p] else 0;
      if p == 0 || p >= total || cur == 0 {
        return false;
      }
      counts := counts[p := cur - 1];
      last := cur == 1;
    }

    /** Cloning succeeds for a single page below the counter's limit and never for a block. */
    method CloneHandle(f: Frame) returns (ok: bool)
      requires Inv(State()) && f in handles
      modifies this
      ensures Inv(State()) && State() == CloneFrame(old(State()), f).UnwrapOr(old(State()))
      ensures ok <==> f.order == 0 && old(Count(State(), f.page)) < COUNT_MAX
    {
      ClonePossible(State(), f);
      if CloneFrame(State(), f).Some? {
        CloneKeeps(State(), f);
      }
      hide Inv;
      ok := IncCount(f.page);
      if ok {
        handles := handles + multiset{f};
      }
    }

    method DropHandle(f: Frame)
      requires Inv(State()) && f in handles
      modifies this
      ensures Inv(State()) && State() == DropFrame(old(State()), f)
    {
      DropKeeps(State(), f);
      hide Inv;
      handles := handles - multiset{f};
      if f.order == 0 {
        var last := DecCount(f.page);
        if last {
          returned := returned + multiset{f};
        }
      } else if f.order <= MAX_BUDDY_ORDER {
        returned := returned + multiset{f};
      }
    }

    method MapPage(space: nat, va: nat, f: Frame, flags: Flags, reached: bool) returns (ok: bool)
      requires Inv(State()) && f in handles
      modifies this`counts, this`entries
      ensures State() == MapFrame(old(State()), space, va, f, flags, reached)
      ensures ok <==> va <= USER_VADDR_MAX
      ensures Inv(State()) <==> !ok || old(MapBalances(State(), SlotOf(space, va), f, flags, reached))
    {
      MapKeepsIff(State(), space, va, f, flags, reached);
      hide Inv, MapBalances;
      if va > USER_VADDR_MAX {
        return false;
      }
      if reached {
        WriteEntry(SlotOf(space, va), Entry(f.page, flags.present, flags.user));
      }
      var _ := IncCount(f.page);
      ok := true;
    }

    method WriteEntry(slot: Slot, e: Entry)
      modifies this`entries
      ensures entries == Put(old(entries), slot, e) && EntryAt(entries, slot) == e
    {
      if e == ZERO_ENTRY {
        entries := entries - {slot};
      } else {
        entries := entries[slot := e];
      }
    }

    method UnmapPage(space: nat, va: nat) returns (ok: bool)
      requires Inv(State())
      modifies this
      ensures Inv(State()) && State() == Unmap(old(State()), space, va)
      ensures ok <==> va <= USER_VADDR_MAX
    {
      UnmapKeeps(State(), space, va);
      hide Inv;
      if va > USER_VADDR_MAX {
        return false;
      }
      ok := true;
      var slot := SlotOf(space, va);
      if slot in entries {
        var e := entries[slot];
        entries := entries - {slot};
        if e.Counted() {
          var last := DecCount(e.page);
          if last {
            returned := returned + multiset{Frame(e.page, 0)};
          }
        }
      }
    }

    /** Only the flags of one entry change, so no counter moves. */
    method ProtectPage(space: nat, va: nat, flags: Flags, reached: bool) returns (ok: bool)
      requires Inv(State())
      modifies this`entries
      ensures State() == Protect(old(State()), space, va, flags, reached)
      ensures ok <==> va <= USER_VADDR_MAX
      ensures Inv(State()) <==> !ok || old(ProtectBalances(State(), SlotOf(space, va), flags, reached))
    {
      ProtectKeepsIff(State(), space, va, flags, reached);
      hide Inv, ProtectBalances;
      if va > USER_VADDR_MAX {
        return false;
      }
      ok := true;
      var slot := SlotOf(space, va);
      if reached {
        var e := if slot in entries then entries[slot] else ZERO_ENTRY;
        WriteEntry(slot, e.(present := flags.present, user := flags.user));
      }
    }
  }
}
