/** The streaming DMA buffer and its sync automaton (privileged/dma_buf.rs). */
module Dma {
  import opened Machine

  const PAGE_SIZE: nat := 4096
  const DMA_MAX_SIZE: nat := 0x1000_0000

  datatype Direction = ToDevice | FromDevice | Bidirectional
  datatype SyncState = CpuReady | DeviceReady | BidirInProgress
  datatype DmaError = NotAligned | SizeOverflow | ZeroSize | SizeTooLarge | InvalidStateTransition | InvalidFrame

  /** A call on the stream, named by the side it prepares the buffer for. */
  datatype Call = ForDevice | ForCpu

  /**
   * `Frame::size`: a 64-bit left shift of the page size. A release build uses
   * the low six bits of the shift amount; a debug build panics from 64 on.
   */
  function FrameSize(order: Byte): nat {
    PAGE_SIZE * Pow2(Shift(order)) % TWO64
  }

  function Shift(order: Byte): nat {
    order % 64
  }

  function StartState(dir: Direction): SyncState {
    if dir == FromDevice then DeviceReady else CpuReady
  }

  /** The check of `from_frame`. */
  function FromFrame(phys: U64, order: Byte): Option<DmaError> {
    var size := FrameSize(order);
    if PhysToVirt(phys) == 0 then Some(InvalidFrame)
    else if size == 0 then Some(ZeroSize)
    else if phys % PAGE_SIZE != 0 then Some(NotAligned)
    else if size % PAGE_SIZE != 0 then Some(NotAligned)
    else if size > DMA_MAX_SIZE then Some(SizeTooLarge)
    else if phys + size > U64_MAX then Some(SizeOverflow)
    else None
  }

  lemma PowSixteen()
    ensures Pow2(16) == 0x1_0000
  {
    assert Pow2(4) == 16;
    Pow2Adds(4, 4);
    Pow2Adds(8, 8);
  }

  lemma {:induction false} Pow2Monotone(m: nat, n: nat)
    requires m <= n
    ensures Pow2(m) <= Pow2(n)
  {
    if m < n {
      Pow2Monotone(m, n - 1);
    }
  }

  lemma PowFiftyTwo()
    ensures PAGE_SIZE * Pow2(52) == TWO64
  {
    PowSixteen();
    Pow2Adds(16, 16);
    Pow2Adds(32, 16);
    assert Pow2(4) == 16;
    Pow2Adds(48, 4);
  }

  lemma BigSize(order: Byte)
    requires 16 < Shift(order) < 52
    ensures FrameSize(order) > DMA_MAX_SIZE
  {
    PowSixteen();
    Pow2Monotone(17, Shift(order));
    Pow2Monotone(Shift(order), 51);
    PowFiftyTwo();
    assert Pow2(17) == 2 * Pow2(16) && Pow2(52) == 2 * Pow2(51);
  }

  lemma VanishingSize(order: Byte)
    requires Shift(order) >= 52
    ensures FrameSize(order) == 0
  {
    PowFiftyTwo();
    Pow2Adds(52, Shift(order) - 52);
    assert PAGE_SIZE * Pow2(Shift(order)) == TWO64 * Pow2(Shift(order) - 52);
  }

  lemma SmallSize(order: Byte)
    requires Shift(order) <= 16
    ensures 0 < FrameSize(order) == PAGE_SIZE * Pow2(Shift(order)) <= DMA_MAX_SIZE
    ensures FrameSize(order) % PAGE_SIZE == 0
  {
    PowSixteen();
    Pow2Monotone(Shift(order), 16);
  }

  /**
   * A frame is accepted exactly when its translation is not null, it is page aligned, at most 256 MiB
   * by its shifted size, and does not reach past the address space.
   */
  lemma AcceptedFrames(phys: U64, order: Byte)
    ensures FromFrame(phys, order).None? <==>
            && phys != NULL_PHYS && phys % PAGE_SIZE == 0 && Shift(order) <= 16
            && phys + PAGE_SIZE * Pow2(Shift(order)) <= U64_MAX
  {
    hide FrameSize, Pow2, Shift, PhysToVirt;
    NullTranslation(phys);
    if Shift(order) <= 16 {
      SmallSize(order);
    } else if Shift(order) < 52 {
      BigSize(order);
    } else {
      VanishingSize(order);
    }
  }

  lemma PowNext(n: nat)
    ensures Pow2(n + 1) == 2 * Pow2(n)
  {
  }

  /** Why a frame is refused: the first of these that applies. */
  lemma RefusedFrames(phys: U64, order: Byte)
    ensures var size := PAGE_SIZE * Pow2(Shift(order));
            FromFrame(phys, order) ==
            if phys == NULL_PHYS then Some(InvalidFrame)
            else if Shift(order) >= 52 then Some(ZeroSize)
            else if phys % 4096 != 0 then Some(NotAligned)
            else if Shift(order) > 16 then Some(SizeTooLarge)
            else if phys + size > U64_MAX then Some(SizeOverflow)
            else None
  {
    hide FrameSize, Pow2, Shift, PhysToVirt;
    NullTranslation(phys);
    if Shift(order) <= 16 {
      SmallSize(order);
    } else if Shift(order) < 52 {
      BigSize(order);
      BigAligned(order);
    } else {
      VanishingSize(order);
    }
  }

  lemma BigAligned(order: Byte)
    requires Shift(order) < 52
    ensures FrameSize(order) % PAGE_SIZE == 0
  {
    hide Pow2, Shift;
    var n := PAGE_SIZE * Pow2(Shift(order));
    assert n == TWO64 * (n / TWO64) + n % TWO64;
    MultipleOf(Pow2(Shift(order)), n / TWO64, n % TWO64);
  }

  lemma MultipleOf(p: nat, q: nat, r: nat)
    requires PAGE_SIZE * p == TWO64 * q + r
    ensures r % PAGE_SIZE == 0
  {
    assert r == PAGE_SIZE * (p - 0x10_0000_0000_0000 * q);
  }

  /** The size checked is the frame's own size exactly for the orders a 64-bit shift can express. */
  lemma CheckedSizeIff(order: Byte)
    ensures FrameSize(order) == PAGE_SIZE * Pow2(order) <==> order < 52
  {
    hide Pow2;
    PowFiftyTwo();
    PowNext(51);
    if order < 52 {
      Pow2Monotone(order, 51);
      SmallModulus(PAGE_SIZE * Pow2(order), TWO64);
    } else {
      Pow2Monotone(52, order);
      assert PAGE_SIZE * Pow2(order) >= TWO64;
      WithinModulus(PAGE_SIZE * Pow2(Shift(order)));
    }
  }

  lemma WithinModulus(x: nat)
    ensures x % TWO64 < TWO64
  {
  }

  lemma SmallModulus(x: nat, m: nat)
    requires x < m
    ensures x % m == x
  {
  }

  // ---- the automaton ---------------------------------------------------------------

  function SyncForDevice(dir: Direction, st: SyncState): Option<SyncState> {
    if dir != FromDevice && (st == CpuReady || st == BidirInProgress) then Some(DeviceReady) else None
  }

  function SyncForCpu(dir: Direction, st: SyncState): Option<SyncState> {
    if dir != ToDevice && (st == DeviceReady || st == BidirInProgress) then Some(CpuReady) else None
  }

  function Sync(dir: Direction, st: SyncState, c: Call): Option<SyncState> {
    if c == ForDevice then SyncForDevice(dir, st) else SyncForCpu(dir, st)
  }

  /** The state after the first `n` calls; a failed call changes nothing. */
  function After(dir: Direction, calls: seq<Call>, n: nat): SyncState
    requires n <= |calls|
  {
    if n == 0 then StartState(dir)
    else
      var st := After(dir, calls, n - 1);
      Sync(dir, st, calls[n - 1]).UnwrapOr(st)
  }

  predicate Succeeds(dir: Direction, calls: seq<Call>, i: nat)
    requires i < |calls|
  {
    Sync(dir, After(dir, calls, i), calls[i]).Some?
  }

  /** The call a one-way stream answers. */
  function OwnCall(dir: Direction): Call {
    if dir == FromDevice then ForCpu else ForDevice
  }

  /**
   * Which calls succeed, read off the call sequence alone: on a one-way stream
   * the first call in its own direction and nothing else; on a two-way stream
   * exactly the calls that differ from the call before, the first having to be
   * for the device.
   */
  ghost predicate ShouldSucceed(dir: Direction, calls: seq<Call>, i: nat)
    requires i < |calls|
  {
    if dir == Bidirectional then calls[i] != (if i == 0 then ForCpu else calls[i - 1])
    else calls[i] == OwnCall(dir) && OwnCall(dir) !in calls[..i]
  }

  lemma {:induction false} AfterCalls(dir: Direction, calls: seq<Call>, n: nat)
    requires n <= |calls|
    ensures After(dir, calls, n) != BidirInProgress
    ensures dir == Bidirectional ==>
              (After(dir, calls, n) == CpuReady <==> n == 0 || calls[n - 1] == ForCpu)
    ensures dir != Bidirectional ==>
              (After(dir, calls, n) == StartState(dir) <==> OwnCall(dir) !in calls[..n])
  {
    if n > 0 {
      AfterCalls(dir, calls, n - 1);
      assert calls[..n] == calls[..n - 1] + [calls[n - 1]];
    }
  }

  /** The sync language of every stream; the intermediate state is never reached. */
  lemma SyncLanguage(dir: Direction, calls: seq<Call>, i: nat)
    requires i < |calls|
    ensures Succeeds(dir, calls, i) <==> ShouldSucceed(dir, calls, i)
    ensures After(dir, calls, i) != BidirInProgress
  {
    AfterCalls(dir, calls, i);
  }

  /** Two successes of a two-way stream with only failures between them are for opposite sides. */
  lemma SuccessesAlternate(calls: seq<Call>, i: nat, j: nat)
    requires i < j < |calls|
    requires Succeeds(Bidirectional, calls, i) && Succeeds(Bidirectional, calls, j)
    requires forall k :: i < k < j ==> !Succeeds(Bidirectional, calls, k)
    ensures calls[i] != calls[j]
  {
    SyncLanguage(Bidirectional, calls, j);
    FailuresRepeat(calls, i, j - 1);
  }

  lemma {:induction false} FailuresRepeat(calls: seq<Call>, i: nat, j: nat)
    requires i <= j < |calls|
    requires forall k :: i < k <= j ==> !Succeeds(Bidirectional, calls, k)
    ensures calls[j] == calls[i]
  {
    if i < j {
      FailuresRepeat(calls, i, j - 1);
      SyncLanguage(Bidirectional, calls, j);
    }
  }

  class DmaStream {
    const direction: Direction
    var syncState: SyncState

    constructor (dir: Direction)
      ensures direction == dir && syncState == StartState(dir)
    {
      direction := dir;
      match dir {
        case ToDevice => syncState := CpuReady;
        case FromDevice => syncState := DeviceReady;
        case Bidirectional => syncState := CpuReady;
      }
    }

    method DoSyncForDevice() returns (err: Option<DmaError>)
      modifies this`syncState
      ensures syncState == SyncForDevice(direction, old(syncState)).UnwrapOr(old(syncState))
      ensures err == if SyncForDevice(direction, old(syncState)).Some? then None else Some(InvalidStateTransition)
    {
      match direction {
        case ToDevice | Bidirectional =>
          if syncState == CpuReady || syncState == BidirInProgress {
            syncState := DeviceReady;
            return None;
          }
          return Some(InvalidStateTransition);
        case FromDevice =>
          return Some(InvalidStateTransition);
      }
    }

    method DoSyncForCpu() returns (err: Option<DmaError>)
      modifies this`syncState
      ensures syncState == SyncForCpu(direction, old(syncState)).UnwrapOr(old(syncState))
      ensures err == if SyncForCpu(direction, old(syncState)).Some? then None else Some(InvalidStateTransition)
    {
      match direction {
        case FromDevice | Bidirectional =>
          if syncState == DeviceReady || syncState == BidirInProgress {
            syncState := CpuReady;
            return None;
          }
          return Some(InvalidStateTransition);
        case ToDevice =>
          return Some(InvalidStateTransition);
      }
    }
  }
}
