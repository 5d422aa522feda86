/** MMIO handles and the alias registry that keeps them exclusive (privileged/iomem.rs). */
module IoMem {
  import opened Machine

  const MAX_MMIO_MAPPINGS: nat := 64

  /** A physical region; as a registry entry its name is kept beside it. */
  datatype Region = Region(base: U64, len: nat) {
    function End(): nat {
      base + len
    }
  }

  datatype Entry = Entry(region: Region, name: string)

  datatype Outcome<T> = Ok(value: T) | Err(error: string)

  predicate Apart(a: Region, b: Region) {
    a.End() <= b.base || b.End() <= a.base
  }

  predicate Sound(r: Region) {
    r.len > 0 && r.End() <= U64_MAX
  }

  /** The registered regions are non-empty, do not wrap, and are pairwise disjoint. */
  ghost predicate Exclusive(es: seq<Entry>) {
    && (forall i :: 0 <= i < |es| ==> Sound(es[i].region))
    && (forall i, j :: 0 <= i < j < |es| ==> Apart(es[i].region, es[j].region))
  }

  ghost function Regions(es: seq<Entry>): set<Region> {
    set i | 0 <= i < |es| :: es[i].region
  }

  /** `check_conflict` for one entry. */
  predicate Conflicts(e: Entry, phys: U64, end: nat) {
    phys < SaturatingAdd(e.region.base, e.region.len) && end > e.region.base
  }

  lemma ConflictIsOverlap(e: Entry, phys: U64, end: nat)
    requires Sound(e.region) && phys < end <= U64_MAX
    ensures Conflicts(e, phys, end) <==> !Apart(e.region, Region(phys, end - phys))
  {
  }

  /** In an exclusive registry a base identifies its entry. */
  lemma BasesDiffer(es: seq<Entry>, i: nat, j: nat)
    requires Exclusive(es) && i < |es| && j < |es| && i != j
    ensures es[i].region.base != es[j].region.base
  {
    assert Apart(es[if i < j then i else j].region, es[if i < j then j else i].region);
  }

  function Removed(es: seq<Entry>, i: nat): seq<Entry>
    requires i < |es|
  {
    es[i := es[|es| - 1]][..|es| - 1]
  }

  lemma RemovedAt(es: seq<Entry>, i: nat, k: nat)
    requires i < |es| && k < |es| - 1
    ensures Removed(es, i)[k] == es[if k == i then |es| - 1 else k]
  {
  }

  /** Swap-remove takes away exactly the region at `i`. */
  lemma RemovedRegions(es: seq<Entry>, i: nat)
    requires Exclusive(es) && i < |es|
    ensures Exclusive(Removed(es, i))
    ensures Regions(Removed(es, i)) == Regions(es) - {es[i].region}
  {
    var out, last := Removed(es, i), |es| - 1;
    forall k | 0 <= k < |out|
      ensures out[k] == es[if k == i then last else k]
    {
      RemovedAt(es, i, k);
    }
    forall k | 0 <= k < |out|
      ensures out[k].region != es[i].region && out[k].region in Regions(es)
    {
      BasesDiffer(es, if k == i then last else k, i);
    }
    forall k | 0 <= k < |es| && k != i
      ensures es[k].region in Regions(out)
    {
      assert out[if k == last then i else k] == es[k];
    }
  }

  lemma AddedRegions(es: seq<Entry>, e: Entry)
    requires Exclusive(es) && Sound(e.region)
    requires forall i :: 0 <= i < |es| ==> Apart(es[i].region, e.region)
    ensures Exclusive(es + [e])
    ensures Regions(es + [e]) == Regions(es) + {e.region} && e.region !in Regions(es)
  {
    var out := es + [e];
    assert out[|es|] == e;
    assert forall i :: 0 <= i < |es| ==> out[i] == es[i];
  }

  // ---- creating and dropping handles, as functions of the registry ------------------

  datatype Handle = Handle(region: Region, virt: U64, name: string)

  predicate AnyConflict(es: seq<Entry>, phys: U64, end: nat) {
    exists i :: 0 <= i < |es| && Conflicts(es[i], phys, end)
  }

  function RegisterError(es: seq<Entry>, phys: U64, end: nat): Option<string> {
    if |es| >= MAX_MMIO_MAPPINGS then Some("MMIO alias registry full")
    else if AnyConflict(es, phys, end) then Some("MMIO region overlaps existing region")
    else None
  }

  function ShapeError(phys: U64, len: nat): Option<string> {
    if len == 0 then Some("IoMem: zero-length MMIO region")
    else if phys % 4 != 0 then Some("IoMem: phys must be 4-byte aligned")
    else if phys + len > U64_MAX then Some("IoMem: phys + len overflows u64")
    else None
  }

  /** `IoMem::new`: the registry afterwards and the handle or the error. */
  function Create(es: seq<Entry>, phys: U64, len: nat, name: string): (seq<Entry>, Outcome<Handle>) {
    var shape := ShapeError(phys, len);
    if shape.Some? then (es, Err(shape.value))
    else
      var refused := RegisterError(es, phys, phys + len);
      if refused.Some? then (es, Err(refused.value))
      else
        var es' := es + [Entry(Region(phys, len), name)];
        if PhysToVirt(phys) == 0 then (es', Err("IoMem: null virtual address"))
        else (es', Ok(Handle(Region(phys, len), PhysToVirt(phys), name)))
  }

  /** `from_pci_bar` and `from_platform_device`: base zero is refused first. */
  function CreateAt(es: seq<Entry>, phys: U64, len: nat, name: string, zeroError: string): (seq<Entry>, Outcome<Handle>) {
    if phys == 0 then (es, Err(zeroError)) else Create(es, phys, len, name)
  }

  /** `unregister`: the first entry with that base, if any, by swap-remove. */
  function Unregister(es: seq<Entry>, phys: U64, from: nat): seq<Entry>
    requires from <= |es|
    decreases |es| - from
  {
    if from == |es| then es
    else if es[from].region.base == phys then Removed(es, from)
    else Unregister(es, phys, from + 1)
  }

  lemma {:induction false} UnregisterFinds(es: seq<Entry>, i: nat, from: nat)
    requires Exclusive(es) && from <= i < |es|
    ensures Unregister(es, es[i].region.base, from) == Removed(es, i)
    decreases i - from
  {
    if from < i {
      BasesDiffer(es, from, i);
      UnregisterFinds(es, i, from + 1);
    }
  }

  // ---- whole runs -------------------------------------------------------------------

  /** The registry, the regions of live handles, regions whose creation failed after registering, and the live handles' addresses. */
  datatype World = World(entries: seq<Entry>, live: set<Region>, leaked: set<Region>, virts: map<Region, U64>)

  datatype Op = New(phys: U64, len: nat, name: string) | Drop(region: Region)

  ghost predicate Inv(w: World) {
    && |w.entries| <= MAX_MMIO_MAPPINGS && Exclusive(w.entries)
    && Regions(w.entries) == w.live + w.leaked && w.live !! w.leaked
    && (forall r :: r in w.leaked ==> r.base == NULL_PHYS)
    && w.virts.Keys == w.live
    && forall r :: r in w.live ==> w.virts[r] == PhysToVirt(r.base) != 0
  }

  ghost function Apply(w: World, op: Op): World {
    match op
    case New(phys, len, name) =>
      var (es, out) := Create(w.entries, phys, len, name);
      var r := Region(phys, len);
      if out.Ok? then World(es, w.live + {r}, w.leaked, w.virts[r := out.value.virt])
      else if |es| > |w.entries| then World(es, w.live, w.leaked + {r}, w.virts)
      else w
    case Drop(r) => World(Unregister(w.entries, r.base, 0), w.live - {r}, w.leaked, w.virts - {r})
  }

  ghost predicate Legal(w: World, op: Op) {
    op.Drop? ==> op.region in w.live
  }

  lemma NoConflictMeansApart(es: seq<Entry>, phys: U64, len: nat)
    requires Exclusive(es) && ShapeError(phys, len).None? && !AnyConflict(es, phys, phys + len)
    ensures forall i :: 0 <= i < |es| ==> Apart(es[i].region, Region(phys, len))
  {
    forall i | 0 <= i < |es|
      ensures Apart(es[i].region, Region(phys, len))
    {
      ConflictIsOverlap(es[i], phys, phys + len);
    }
  }

  lemma NewKeeps(w: World, phys: U64, len: nat, name: string)
    requires Inv(w)
    ensures Inv(Apply(w, New(phys, len, name)))
  {
    hide Exclusive, Regions, AnyConflict;
    var r := Region(phys, len);
    if ShapeError(phys, len).None? && RegisterError(w.entries, phys, phys + len).None? {
      NoConflictMeansApart(w.entries, phys, len);
      AddedRegions(w.entries, Entry(r, name));
      NullTranslation(phys);
    }
  }

  lemma IndexOf(es: seq<Entry>, r: Region) returns (i: nat)
    requires r in Regions(es)
    ensures i < |es| && es[i].region == r
  {
    i :| i < |es| && es[i].region == r;
  }

  /** A drop takes exactly its own region out of the registry. */
  lemma DropRemovesOwn(w: World, r: Region)
    requires Inv(w) && r in w.live
    ensures var w' := Apply(w, Drop(r));
            Inv(w') && Regions(w'.entries) == Regions(w.entries) - {r}
  {
    var i := IndexOf(w.entries, r);
    UnregisterFinds(w.entries, i, 0);
    RemovedRegions(w.entries, i);
  }

  ghost predicate IsHistory(ws: seq<World>, ops: seq<Op>) {
    && |ws| == |ops| + 1 && ws[0] == World([], {}, {}, map[])
    && forall i :: 0 <= i < |ops| ==> Legal(ws[i], ops[i]) && ws[i + 1] == Apply(ws[i], ops[i])
  }

  lemma {:induction false} HistoriesKeep(ws: seq<World>, ops: seq<Op>, i: nat)
    requires IsHistory(ws, ops) && i < |ws|
    ensures Inv(ws[i])
  {
    hide Inv, Legal, Apply;
    if i > 0 {
      HistoriesKeep(ws, ops, i - 1);
      StepKeeps(ws[i - 1], ops[i - 1]);
    } else {
      NothingRegistered();
    }
  }

  lemma NothingRegistered()
    ensures Inv(World([], {}, {}, map[]))
  {
    assert Regions([]) == {};
  }

  lemma StepKeeps(w: World, op: Op)
    requires Inv(w) && Legal(w, op)
    ensures Inv(Apply(w, op))
  {
    hide Inv, Apply;
    if op.New? {
      NewKeeps(w, op.phys, op.len, op.name);
    } else {
      DropRemovesOwn(w, op.region);
    }
  }

  // ---- regions lost to a null translation ---------------------------------------------

  /** A well-formed, unclaimed region at the address whose translation is null. */
  predicate Leaks(w: World, op: Op) {
    && op.New? && op.phys == NULL_PHYS
    && ShapeError(op.phys, op.len).None? && RegisterError(w.entries, op.phys, op.phys + op.len).None?
  }

  /** Exactly those creations lose a region, and each loses its own. */
  lemma LeakStepIff(w: World, op: Op)
    requires Inv(w)
    ensures Apply(w, op).leaked != w.leaked <==> Leaks(w, op)
    ensures Leaks(w, op) ==> Apply(w, op).leaked == w.leaked + {Region(op.phys, op.len)}
  {
    hide Exclusive, Regions, AnyConflict;
    if op.New? {
      NullTranslation(op.phys);
      if Leaks(w, op) {
        NoConflictMeansApart(w.entries, op.phys, op.len);
        AddedRegions(w.entries, Entry(Region(op.phys, op.len), op.name));
      }
    }
  }

  predicate NeverLeaks(ws: seq<World>, ops: seq<Op>, n: nat)
    requires n <= |ops| < |ws|
  {
    forall k :: 0 <= k < n ==> !Leaks(ws[k], ops[k])
  }

  lemma {:induction false} LeakedIff(ws: seq<World>, ops: seq<Op>, i: nat)
    requires IsHistory(ws, ops) && i < |ws|
    ensures ws[i].leaked == {} <==> NeverLeaks(ws, ops, i)
  {
    hide Inv, Legal, Apply, Leaks;
    if i > 0 {
      LeakedIff(ws, ops, i - 1);
      HistoriesKeep(ws, ops, i - 1);
      LeakStepIff(ws[i - 1], ops[i - 1]);
      assert NeverLeaks(ws, ops, i) <==> NeverLeaks(ws, ops, i - 1) && !Leaks(ws[i - 1], ops[i - 1]);
    }
  }

  /**
   * After any sequence of creations and drops the live regions do not wrap and
   * are disjoint, and the registry is exactly their set as long as no creation
   * was lost to a null translation.
   */
  lemma RegistryIsLiveSet(ws: seq<World>, ops: seq<Op>, i: nat)
    requires IsHistory(ws, ops) && i < |ws|
    ensures Regions(ws[i].entries) == ws[i].live <==> NeverLeaks(ws, ops, i)
    ensures forall r, s :: r in ws[i].live && s in ws[i].live && r != s ==> Apart(r, s)
    ensures forall r :: r in ws[i].live ==> Sound(r)
  {
    HistoriesKeep(ws, ops, i);
    LeakedIff(ws, ops, i);
    hide NeverLeaks, IsHistory, Apart, Sound;
    LiveIsAll(ws[i]);
    forall r, s | r in ws[i].live && s in ws[i].live && r != s
      ensures Apart(r, s)
    {
      LiveApart(ws[i], r, s);
    }
    forall r | r in ws[i].live
      ensures Sound(r)
    {
      var k := IndexOf(ws[i].entries, r);
    }
  }

  lemma LiveIsAll(w: World)
    requires Inv(w)
    ensures Regions(w.entries) == w.live <==> w.leaked == {}
  {
    hide Regions, Exclusive;
    if r :| r in w.leaked {
      assert r in w.live + w.leaked && r !in w.live;
    } else {
      assert w.live + w.leaked == w.live;
    }
  }

  lemma LiveApart(w: World, r: Region, s: Region)
    requires Inv(w) && r in w.live && s in w.live && r != s
    ensures Apart(r, s) && Sound(r) && Sound(s)
  {
    var i := IndexOf(w.entries, r);
    var j := IndexOf(w.entries, s);
    if i < j {
      assert Apart(w.entries[i].region, w.entries[j].region);
    } else {
      assert Apart(w.entries[j].region, w.entries[i].region);
    }
  }

  /** The null translation really leaks: the region stays registered although no handle exists. */
  lemma NullTranslationLeaks(len: nat, name: string)
    requires 0 < len && NULL_PHYS + len <= U64_MAX
    ensures Create([], NULL_PHYS, len, name) ==
            ([Entry(Region(NULL_PHYS, len), name)], Err("IoMem: null virtual address"))
  {
    NullTranslation(NULL_PHYS);
    assert ShapeError(NULL_PHYS, len).None?;
    var es := [Entry(Region(NULL_PHYS, len), name)];
    assert [] + es == es;
  }

  // ---- bounds-checked access --------------------------------------------------------

  predicate CheckOffset(r: Region, offset: U64, size: U64) {
    SaturatingAdd(offset, size) <= r.len
  }

  /** The saturating bounds check is exact for every length but the largest. */
  lemma CheckOffsetExact(r: Region)
    requires r.len <= U64_MAX
    ensures (forall offset: U64, size: U64 :: CheckOffset(r, offset, size) <==> offset + size <= r.len) <==> r.len < U64_MAX
  {
    if r.len == U64_MAX {
      var big: U64 := U64_MAX;
      assert CheckOffset(r, big, 8) && !(big + 8 <= r.len);
    }
  }

  /** That length is reachable, at base zero through `new` only: an access far outside then passes the check. */
  lemma WholeSpaceHandle(name: string)
    ensures Create([], 0, U64_MAX, name).1.Ok?
    ensures CheckOffset(Region(0, U64_MAX), U64_MAX, 8)
    ensures CreateAt([], 0, U64_MAX, name, "zero").1.Err?
  {
    NullTranslation(0);
  }

  /** A handle whose base is not zero is checked exactly. */
  lemma NonZeroBaseExact(r: Region, offset: U64, size: U64)
    requires Sound(r) && r.base > 0
    ensures CheckOffset(r, offset, size) <==> offset + size <= r.len
  {
  }

  /** So a handle made for a PCI BAR or a platform device is checked exactly, whatever the offset and size. */
  lemma DeviceHandlesExact(es: seq<Entry>, phys: U64, len: nat, name: string, zeroError: string, offset: U64, size: U64)
    requires CreateAt(es, phys, len, name, zeroError).1.Ok?
    ensures var r := CreateAt(es, phys, len, name, zeroError).1.value.region;
            r == Region(phys, len) && (CheckOffset(r, offset, size) <==> offset + size <= len)
  {
    hide AnyConflict, CheckOffset;
    NonZeroBaseExact(Region(phys, len), offset, size);
  }

  /** The kernel address of byte `k` of an access at `offset`. */
  function ByteAddress(virt: U64, offset: U64, k: nat): nat {
    (virt + offset + k) % TWO64
  }

  /** Every byte of a checked access, but for the one inexact length, is the translation of a byte of the handle's own region. */
  lemma AccessLands(w: World, r: Region, offset: U64, size: U64, k: nat)
    requires Inv(w) && r in w.live && r.len < U64_MAX && CheckOffset(r, offset, size) && k < size
    ensures r.base + offset + k < r.End()
    ensures ByteAddress(w.virts[r], offset, k) == PhysToVirt(r.base + offset + k)
  {
    LiveSound(w, r);
    TranslationAdds(r.base, offset + k);
  }

  lemma LiveSound(w: World, r: Region)
    requires Inv(w) && r in w.live
    ensures Sound(r) && w.virts[r] == PhysToVirt(r.base)
  {
    var i := IndexOf(w.entries, r);
  }

  lemma TranslationAdds(phys: U64, n: nat)
    requires phys + n <= U64_MAX
    ensures (PhysToVirt(phys) + n) % TWO64 == PhysToVirt(phys + n)
  {
    var sum := phys + KERNEL_BASE;
    assert PhysToVirt(phys) == if sum < TWO64 then sum else sum - TWO64;
  }

  lemma TranslationInjective(a: U64, b: U64)
    requires PhysToVirt(a) == PhysToVirt(b)
    ensures a == b
  {
    assert PhysToVirt(a) == if a + KERNEL_BASE < TWO64 then a + KERNEL_BASE else a + KERNEL_BASE - TWO64;
    assert PhysToVirt(b) == if b + KERNEL_BASE < TWO64 then b + KERNEL_BASE else b + KERNEL_BASE - TWO64;
  }

  /** Checked accesses through two live handles never touch the same byte, as physical and as kernel addresses. */
  lemma AccessesApart(w: World, r: Region, s: Region, o1: U64, n1: U64, o2: U64, n2: U64, i: nat, j: nat)
    requires Inv(w) && r in w.live && s in w.live && r != s
    requires CheckOffset(r, o1, n1) && CheckOffset(s, o2, n2) && i < n1 && j < n2
    ensures r.base + o1 + i != s.base + o2 + j
    ensures ByteAddress(w.virts[r], o1, i) != ByteAddress(w.virts[s], o2, j)
  {
    LiveApart(w, r, s);
    hide CheckOffset, Inv, ByteAddress, PhysToVirt;
    LargestIsAlone(r, s);
    LargestIsAlone(s, r);
    AccessLands(w, r, o1, n1, i);
    AccessLands(w, s, o2, n2, j);
    if ByteAddress(w.virts[r], o1, i) == ByteAddress(w.virts[s], o2, j) {
      TranslationInjective(r.base + o1 + i, s.base + o2 + j);
    }
  }

  /** A region of the largest length leaves no room for another. */
  lemma LargestIsAlone(r: Region, s: Region)
    requires Sound(r) && Sound(s) && Apart(r, s)
    ensures r.len < U64_MAX
  {
  }

  // ---- creation ---------------------------------------------------------------------

  /**
   * `new` succeeds exactly for a non-empty, word-aligned region that does not
   * wrap, meets no registered one, finds a free slot and has a translation; the
   * handle then holds the region and its translation.
   */
  lemma CreateIff(es: seq<Entry>, phys: U64, len: nat, name: string)
    requires Exclusive(es)
    ensures Create(es, phys, len, name).1.Ok? <==>
            && len > 0 && phys % 4 == 0 && phys + len <= U64_MAX && |es| < 64 && phys != NULL_PHYS
            && forall i :: 0 <= i < |es| ==> Apart(es[i].region, Region(phys, len))
    ensures Create(es, phys, len, name).1.Ok? ==>
              Create(es, phys, len, name) ==
              (es + [Entry(Region(phys, len), name)], Ok(Handle(Region(phys, len), PhysToVirt(phys), name)))
  {
    NullTranslation(phys);
    hide Exclusive, PhysToVirt, Apart, Conflicts;
    if ShapeError(phys, len).None? {
      ConflictFree(es, phys, len);
    }
  }

  /** Otherwise it says which of these came first, and only the last leaves the registry changed. */
  lemma CreateRefusals(es: seq<Entry>, phys: U64, len: nat, name: string)
    requires Exclusive(es) && Create(es, phys, len, name).1.Err?
    ensures Create(es, phys, len, name).1.error ==
            if len == 0 then "IoMem: zero-length MMIO region"
            else if phys % 4 != 0 then "IoMem: phys must be 4-byte aligned"
            else if phys + len > U64_MAX then "IoMem: phys + len overflows u64"
            else if |es| >= 64 then "MMIO alias registry full"
            else if exists i :: 0 <= i < |es| && !Apart(es[i].region, Region(phys, len)) then "MMIO region overlaps existing region"
            else "IoMem: null virtual address"
    ensures Create(es, phys, len, name).0 != es <==>
            && len > 0 && phys == NULL_PHYS && phys + len <= U64_MAX && |es| < 64
            && forall i :: 0 <= i < |es| ==> Apart(es[i].region, Region(phys, len))
  {
    NullTranslation(phys);
    hide Exclusive, PhysToVirt, Apart, Conflicts;
    if ShapeError(phys, len).None? {
      ConflictFree(es, phys, len);
      assert |es + [Entry(Region(phys, len), name)]| == |es| + 1;
    }
  }

  lemma ConflictFree(es: seq<Entry>, phys: U64, len: nat)
    requires Exclusive(es) && ShapeError(phys, len).None?
    ensures AnyConflict(es, phys, phys + len) <==> exists i :: 0 <= i < |es| && !Apart(es[i].region, Region(phys, len))
  {
    forall i | 0 <= i < |es|
      ensures Conflicts(es[i], phys, phys + len) <==> !Apart(es[i].region, Region(phys, len))
    {
      ConflictIsOverlap(es[i], phys, phys + len);
    }
  }

  /** Below the wrap the translation is the kernel's direct map. */
  lemma HandleAddress(es: seq<Entry>, phys: U64, len: nat, name: string)
    requires Create(es, phys, len, name).1.Ok? && phys + 0xFFFF_8000_0000_0000 < TWO64
    ensures Create(es, phys, len, name).1.value.virt == phys + 0xFFFF_8000_0000_0000
  {
    hide AnyConflict;
  }

  // ---- the registry as it runs ------------------------------------------------------

  const NO_ENTRY := Entry(Region(0, 0), "")

  class AliasRegistry {
    const table: array<Entry>
    var count: nat

    ghost predicate Valid()
      reads this, table
    {
      table.Length == MAX_MMIO_MAPPINGS && count <= MAX_MMIO_MAPPINGS
    }

    ghost function Entries(): seq<Entry>
      reads this, table
      requires Valid()
    {
      table[..count]
    }

    constructor ()
      ensures Valid() && Entries() == [] && fresh(table)
    {
      table := new Entry[MAX_MMIO_MAPPINGS](_ => NO_ENTRY);
      count := 0;
    }

    method CheckConflict(phys: U64, end: nat) returns (found: bool)
      requires Valid()
      ensures found <==> AnyConflict(Entries(), phys, end)
    {
      for i := 0 to count
        invariant forall k :: 0 <= k < i ==> !Conflicts(table[k], phys, end)
      {
        if Conflicts(table[i], phys, end) {
          assert Entries()[i] == table[i];
          return true;
        }
      }
      found := false;
    }

    method RegisterChecked(phys: U64, end: nat, name: string) returns (err: Option<string>)
      requires Valid() && phys <= end
      modifies this, table
      ensures Valid() && err == RegisterError(old(Entries()), phys, end)
      ensures Entries() == if err.None? then old(Entries()) + [Entry(Region(phys, end - phys), name)] else old(Entries())
    {
      if count >= MAX_MMIO_MAPPINGS {
        return Some("MMIO alias registry full");
      }
      var conflict := CheckConflict(phys, end);
      if conflict {
        return Some("MMIO region overlaps existing region");
      }
      table[count] := Entry(Region(phys, end - phys), name);
      count := count + 1;
      err := None;
    }

    method UnregisterBase(phys: U64)
      requires Valid()
      modifies this, table
      ensures Valid() && Entries() == Unregister(old(Entries()), phys, 0)
    {
      ghost var was := Entries();
      for i := 0 to count
        invariant Valid() && Entries() == was
        invariant Unregister(was, phys, 0) == Unregister(was, phys, i)
      {
        if table[i].region.base == phys {
          table[i] := table[count - 1];
          count := count - 1;
          assert Entries() == Removed(was, i);
          return;
        }
      }
    }

    /** `IoMem::new` on this registry. */
    method NewHandle(phys: U64, len: nat, name: string) returns (out: Outcome<Handle>)
      requires Valid()
      modifies this, table
      ensures Valid() && (Entries(), out) == Create(old(Entries()), phys, len, name)
    {
      if len == 0 {
        return Err("IoMem: zero-length MMIO region");
      }
      if phys % 4 != 0 {
        return Err("IoMem: phys must be 4-byte aligned");
      }
      var end := CheckedAdd(phys, len);
      if end.None? {
        return Err("IoMem: phys + len overflows u64");
      }
      var err := RegisterChecked(phys, end.value, name);
      if err.Some? {
        return Err(err.value);
      }
      var virt := PhysToVirt(phys);
      if virt == 0 {
        return Err("IoMem: null virtual address");
      }
      out := Ok(Handle(Region(phys, len), virt, name));
    }
  }
}
