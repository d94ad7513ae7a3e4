/** The system bus of the virtual machine monitor, as built for riscv64: the
    registry of attached devices, the first-come-first-served IRQ allocator,
    the region adapters that forward guest MMIO accesses to a device, and the
    default policy of the device operations (`set_irq`, `set_sys_resource`,
    `reset`, and the default type tag, interrupt event and resource slot). */
module Sysbus {

  // ---------------------------------------------------------------------
  // Machine integers
  // ---------------------------------------------------------------------

  const I32_MIN: int := -0x8000_0000
  const I32_MAX: int := 0x7fff_ffff

  newtype i32 = x: int | -0x8000_0000 <= x < 0x8000_0000
  newtype u64 = x: int | 0 <= x < 0x1_0000_0000_0000_0000
  newtype u8 = x: int | 0 <= x < 0x100

  /** IRQ 0 is not used by the PLIC, so the riscv64 range of IRQ numbers is 1..1024. */
  const IRQ_BASE: i32 := 1
  const IRQ_MAX: i32 := 1024

  // ---------------------------------------------------------------------
  // Values
  // ---------------------------------------------------------------------

  datatype Option<T> = None | Some(value: T)

  /** The three ways the bus operations of this model fail. */
  datatype SysBusError =
    | IrqExhausted                                  // "IRQ number exhausted."
    | MissingSysResource                            // "Failed to get sys resource."
    | MemoryRegionRejected(offset: u64, size: u64)  // "Failed to register region in memory space: ..."

  datatype Result<T> = Ok(value: T) | Err(error: SysBusError)

  /** The IRQ value that means "no interrupt line assigned". */
  const NO_IRQ: i32 := -1

  /** Per-device record of its MMIO range and IRQ number. */
  datatype SysRes = SysRes(regionBase: u64, regionSize: u64, irq: i32)

  /** `SysRes::default()`: an empty range at 0 that carries no IRQ. */
  function DefaultSysRes(): (r: SysRes)
    ensures r.regionBase == 0 && r.regionSize == 0
    ensures r.irq == NO_IRQ
  {
    SysRes(0, 0, -1)
  }

  /** The device type tag (the riscv64 build includes `Plic`). */
  datatype SysBusDevType = Serial | Rtc | VirtioMmio | Plic | FwCfg | Ramfb | PcieMem | Others

  /** What a device's `read` leaves in the caller's buffer, and whether it accepted the access. */
  datatype ReadOutcome = ReadOutcome(data: seq<u8>, accepted: bool)

  /** The interrupt-event flags of `devs`, in order. */
  function InterruptEvts(devs: seq<Device>): (evts: seq<bool>)
    ensures |evts| == |devs|
    ensures forall i :: 0 <= i < |devs| ==> evts[i] == devs[i].hasInterruptEvt
  {
    seq(|devs|, i requires 0 <= i < |devs| => devs[i].hasInterruptEvt)
  }

  /** A device's `read`/`write`, applied to the buffer, the region base and the offset. */
  type ReadOp = (seq<u8>, u64, u64) -> ReadOutcome
  type WriteOp = (seq<u8>, u64, u64) -> bool

  /** The read/write callback pair handed to the address space with a region. */
  datatype RegionOps = RegionOps(read: ReadOp, write: WriteOp)

  /** An I/O region of `size` bytes backed by `ops` (`Region::init_io_region`). */
  datatype Region = Region(size: u64, ops: RegionOps)

  /** A region placed in the address space at `offset`. */
  datatype Subregion = Subregion(offset: u64, region: Region)

  // ---------------------------------------------------------------------
  // The guest address space (external collaborator)
  // ---------------------------------------------------------------------

  /** The guest's memory address space, seen only through `add_subregion` on its
      root. Whether a region may be placed (overlap and range checks) is decided
      by `admits`, whose algorithm is not part of this model. */
  class AddressSpace {
    const admits: (seq<Subregion>, u64, u64) -> bool
    var subregions: seq<Subregion>

    constructor (admits: (seq<Subregion>, u64, u64) -> bool)
      ensures this.admits == admits && subregions == []
    {
      this.admits := admits;
      subregions := [];
    }

    /** Places `region` at `offset` when the address space admits it; otherwise leaves it unchanged. */
    method AddSubregion(region: Region, offset: u64) returns (ok: bool)
      modifies this`subregions
      ensures ok == admits(old(subregions), offset, region.size)
      ensures subregions == if ok then old(subregions) + [Subregion(offset, region)] else old(subregions)
    {
      ok := admits(subregions, offset, region.size);
      if ok {
        subregions := subregions + [Subregion(offset, region)];
      }
    }
  }

  // ---------------------------------------------------------------------
  // IRQ allocation, as a specification
  // ---------------------------------------------------------------------

  /** The value a `set_irq` call returns and the cursor it leaves behind. */
  datatype IrqAllocation = IrqAllocation(result: Result<i32>, cursor: int)

  /** One default `set_irq` on a bus whose cursor is `cursor` and whose range
      ends at `hi`, for a device that has an interrupt event or not: exhaustion
      is checked first, a device without an event gets -1 and leaves the cursor
      alone, any other device gets the cursor, which then moves up by one. */
  function AllocateIrq(cursor: int, hi: i32, hasInterruptEvt: bool): (a: IrqAllocation)
    requires I32_MIN <= cursor
    ensures a.result.Err? <==> cursor > hi as int
    ensures a.result.Err? ==> a.result.error == IrqExhausted
    ensures a.result.Ok? ==> a.result.value as int == if hasInterruptEvt then cursor else NO_IRQ as int
    ensures a.cursor == if a.result.Ok? && hasInterruptEvt then cursor + 1 else cursor
  {
    if cursor > hi as int then IrqAllocation(Err(IrqExhausted), cursor)
    else if !hasInterruptEvt then IrqAllocation(Ok(NO_IRQ), cursor)
    else IrqAllocation(Ok(cursor as i32), cursor + 1)
  }

  /** Successive `set_irq` calls on one bus, one per device in call order
      (`evts[i]` says whether device i has an interrupt event): every result,
      and the cursor after the last call. */
  function AllocateInOrder(cursor: int, hi: i32, evts: seq<bool>): (seq<Result<i32>>, int)
    requires I32_MIN <= cursor
    decreases |evts|
  {
    if evts == [] then ([], cursor)
    else
      var a := AllocateIrq(cursor, hi, evts[0]);
      var rest := AllocateInOrder(a.cursor, hi, evts[1..]);
      ([a.result] + rest.0, rest.1)
  }

  /** How many devices in `evts` have an interrupt event. */
  function CountTrue(evts: seq<bool>): nat
  {
    if evts == [] then 0 else (if evts[0] then 1 else 0) + CountTrue(evts[1..])
  }

  function Min(a: int, b: int): int
  {
    if a <= b then a else b
  }

  lemma {:induction false} CountTrueAppend(s: seq<bool>, t: seq<bool>)
    ensures CountTrue(s + t) == CountTrue(s) + CountTrue(t)
  {
    if s == [] {
      assert s + t == t;
    } else {
      assert (s + t)[1..] == s[1..] + t;
      CountTrueAppend(s[1..], t);
    }
  }

  lemma {:induction false} CountTrueAll(s: seq<bool>)
    requires forall i :: 0 <= i < |s| ==> s[i]
    ensures CountTrue(s) == |s|
  {
    if s != [] {
      CountTrueAll(s[1..]);
    }
  }

  /** A longer prefix counts at least as many devices with an event, and
      strictly more when it covers position i and `s[i]` holds. */
  lemma CountTruePrefixGrows(s: seq<bool>, i: nat, j: nat)
    requires i <= j <= |s|
    ensures CountTrue(s[..i]) <= CountTrue(s[..j])
    ensures i < j && s[i] ==> CountTrue(s[..i]) < CountTrue(s[..j])
  {
    assert s[..j] == s[..i] + s[i..j];
    CountTrueAppend(s[..i], s[i..j]);
    if i < j {
      assert s[i..j][0] == s[i];
    }
  }

  /** The i-th call of a sequence behaves exactly like a single call made with
      the cursor moved up by the number of earlier devices that have an
      interrupt event; the final cursor has moved up by the number of devices
      with an event, but never past `hi + 1` (and not at all if the range was
      exhausted from the start). */
  lemma {:induction false} AllocateInOrderResults(cursor: int, hi: i32, evts: seq<bool>)
    requires I32_MIN <= cursor
    decreases |evts|
    ensures |AllocateInOrder(cursor, hi, evts).0| == |evts|
    ensures forall i :: 0 <= i < |evts| ==>
      AllocateInOrder(cursor, hi, evts).0[i] == AllocateIrq(cursor + CountTrue(evts[..i]), hi, evts[i]).result
    ensures AllocateInOrder(cursor, hi, evts).1 ==
      if cursor > hi as int then cursor else Min(cursor + CountTrue(evts), hi as int + 1)
  {
    if evts != [] {
      var a := AllocateIrq(cursor, hi, evts[0]);
      var tail := evts[1..];
      AllocateInOrderResults(a.cursor, hi, tail);
      var out := AllocateInOrder(cursor, hi, evts);
      forall i | 0 <= i < |evts|
        ensures out.0[i] == AllocateIrq(cursor + CountTrue(evts[..i]), hi, evts[i]).result
      {
        if i > 0 {
          assert evts[..i][1..] == evts[1..i] == tail[..i - 1];
          assert CountTrue(evts[..i]) == (if evts[0] then 1 else 0) + CountTrue(tail[..i - 1]);
          assert out.0[i] == AllocateInOrder(a.cursor, hi, tail).0[i - 1];
        } else {
          assert evts[..0] == [];
        }
      }
    }
  }

  /** A run of devices that all have an interrupt event gets the consecutive
      numbers cursor, cursor+1, ... for as long as they stay within the range,
      and "IRQ number exhausted" from there on. */
  lemma IrqsAreConsecutive(cursor: int, hi: i32, evts: seq<bool>)
    requires I32_MIN <= cursor
    requires forall i :: 0 <= i < |evts| ==> evts[i]
    ensures var out := AllocateInOrder(cursor, hi, evts);
      |out.0| == |evts| &&
      forall i :: 0 <= i < |evts| ==>
        if cursor + i <= hi as int then out.0[i].Ok? && out.0[i].value as int == cursor + i
        else out.0[i] == Err(IrqExhausted)
  {
    AllocateInOrderResults(cursor, hi, evts);
    forall i | 0 <= i < |evts|
      ensures CountTrue(evts[..i]) == i
    {
      CountTrueAll(evts[..i]);
    }
  }

  /** Every IRQ handed out lies between the starting cursor and `hi`, and
      numbers handed out later are strictly larger: no IRQ is given twice. */
  lemma AssignedIrqsDistinctInRange(cursor: int, hi: i32, evts: seq<bool>)
    requires I32_MIN <= cursor
    ensures var out := AllocateInOrder(cursor, hi, evts);
      |out.0| == |evts| &&
      (forall i :: 0 <= i < |evts| && evts[i] && out.0[i].Ok? ==>
        cursor <= out.0[i].value as int <= hi as int) &&
      (forall i, j :: 0 <= i < j < |evts| && evts[i] && evts[j] && out.0[i].Ok? && out.0[j].Ok? ==>
        out.0[i].value < out.0[j].value)
  {
    AllocateInOrderResults(cursor, hi, evts);
    forall i, j | 0 <= i < j < |evts|
      ensures evts[i] ==> CountTrue(evts[..i]) < CountTrue(evts[..j])
    {
      CountTruePrefixGrows(evts, i, j);
    }
  }

  /** Once a call reports "IRQ number exhausted", every later call does too,
      whether or not its device has an interrupt event. */
  lemma ExhaustionIsPermanent(cursor: int, hi: i32, evts: seq<bool>)
    requires I32_MIN <= cursor
    ensures var out := AllocateInOrder(cursor, hi, evts);
      |out.0| == |evts| &&
      forall i, j :: 0 <= i < j < |evts| && out.0[i].Err? ==> out.0[j] == Err(IrqExhausted)
  {
    AllocateInOrderResults(cursor, hi, evts);
    forall i, j | 0 <= i < j < |evts|
      ensures CountTrue(evts[..i]) <= CountTrue(evts[..j])
    {
      CountTruePrefixGrows(evts, i, j);
    }
  }

  /** When the range starts at 0 or above, a result of -1 is unambiguous: it is
      returned exactly to the devices without an interrupt event that were
      served before the range ran out. */
  lemma NoIrqSentinelMeansNoEvent(cursor: int, hi: i32, evts: seq<bool>)
    requires 0 <= cursor
    ensures var out := AllocateInOrder(cursor, hi, evts);
      |out.0| == |evts| &&
      forall i :: 0 <= i < |evts| ==>
        (out.0[i] == Ok(NO_IRQ) <==> !evts[i] && cursor + CountTrue(evts[..i]) <= hi as int)
  {
    AllocateInOrderResults(cursor, hi, evts);
  }

  /** On riscv64 (range IRQ_BASE..IRQ_MAX) IRQ 0 is never handed out, every
      assigned number is at most 1024, and the call that meets 1024 earlier
      devices with an event, and every call after it, is refused. */
  lemma RiscvIrqRange(evts: seq<bool>)
    ensures var out := AllocateInOrder(IRQ_BASE as int, IRQ_MAX, evts);
      |out.0| == |evts| &&
      (forall i :: 0 <= i < |evts| && evts[i] && out.0[i].Ok? ==> 1 <= out.0[i].value <= 1024) &&
      (forall i :: 0 <= i < |evts| ==> (out.0[i].Err? <==> CountTrue(evts[..i]) >= 1024))
  {
    AssignedIrqsDistinctInRange(IRQ_BASE as int, IRQ_MAX, evts);
    AllocateInOrderResults(IRQ_BASE as int, IRQ_MAX, evts);
  }

  // ---------------------------------------------------------------------
  // The cursor increment as written (see README, Findings)
  // ---------------------------------------------------------------------

  /** `irq + 1` on an i32 as a release build computes it: two's-complement wrap. */
  function WrappingIncrement(x: i32): i32
  {
    if x as int == I32_MAX then I32_MIN as i32 else x + 1
  }

  /** One `set_irq` with the cursor stored in an i32 and advanced by `irq + 1`. */
  function AllocateIrqAsWritten(cursor: i32, hi: i32, hasInterruptEvt: bool): (a: IrqAllocation)
    ensures a.result.Err? <==> cursor > hi
    ensures a.result.Err? ==> a.result.error == IrqExhausted
    ensures a.result.Ok? ==> a.result == if hasInterruptEvt then Ok(cursor) else Ok(NO_IRQ)
    ensures a.cursor == if a.result.Ok? && hasInterruptEvt
      then (if cursor as int == I32_MAX then I32_MIN else cursor as int + 1)
      else cursor as int
  {
    if cursor > hi then IrqAllocation(Err(IrqExhausted), cursor as int)
    else if !hasInterruptEvt then IrqAllocation(Ok(NO_IRQ), cursor as int)
    else IrqAllocation(Ok(cursor), WrappingIncrement(cursor) as int)
  }

  /** With `free_irqs == (i32::MAX, i32::MAX)` the i32 cursor wraps after the one
      IRQ of the range is handed out, and the next device gets i32::MIN, a
      number outside the range, where the wider cursor reports exhaustion. */
  lemma CursorWrapsAtI32Max()
    ensures var first := AllocateIrqAsWritten(I32_MAX as i32, I32_MAX as i32, true);
      first.result == Ok(I32_MAX as i32) && first.cursor == I32_MIN &&
      AllocateIrqAsWritten(first.cursor as i32, I32_MAX as i32, true).result == Ok(I32_MIN as i32)
    ensures AllocateInOrder(I32_MAX, I32_MAX as i32, [true, true]).0 == [Ok(I32_MAX as i32), Err(IrqExhausted)]
  {
  }

  // ---------------------------------------------------------------------
  // Devices
  // ---------------------------------------------------------------------

  /** A device on the system bus. What the source's device overrides (type tag,
      interrupt event, resource slot, read and write) is fixed at construction;
      the resource descriptor, when the device has one, is updated in place. */
  class Device {
    const devType: SysBusDevType
    const hasInterruptEvt: bool
    const readOp: ReadOp
    const writeOp: WriteOp
    var sysRes: Option<SysRes>

    /** A device that overrides only `read` and `write`: tag `Others`, no
        interrupt event, no resource slot. */
    constructor WithDefaults(readOp: ReadOp, writeOp: WriteOp)
      ensures devType == Others && !hasInterruptEvt && sysRes == None
      ensures this.readOp == readOp && this.writeOp == writeOp
    {
      devType := Others;
      hasInterruptEvt := false;
      this.readOp := readOp;
      this.writeOp := writeOp;
      sysRes := None;
    }

    constructor (devType: SysBusDevType, hasInterruptEvt: bool, sysRes: Option<SysRes>,
                 readOp: ReadOp, writeOp: WriteOp)
      ensures this.devType == devType && this.hasInterruptEvt == hasInterruptEvt
      ensures this.sysRes == sysRes && this.readOp == readOp && this.writeOp == writeOp
    {
      this.devType := devType;
      this.hasInterruptEvt := hasInterruptEvt;
      this.sysRes := sysRes;
      this.readOp := readOp;
      this.writeOp := writeOp;
    }

    /** Default `set_irq`: allocates the next free IRQ of `bus` to this device. */
    method SetIrq(bus: SysBus) returns (r: Result<i32>)
      requires bus.Valid()
      modifies bus`minFreeIrq, bus`issued
      ensures bus.Valid()
      ensures var a := AllocateIrq(old(bus.minFreeIrq), bus.freeIrqs.1, hasInterruptEvt);
        r == a.result && bus.minFreeIrq == a.cursor
      ensures bus.issued == if r.Ok? && hasInterruptEvt then old(bus.issued) + [r.value as int] else old(bus.issued)
    {
      var irq := bus.minFreeIrq;
      if irq > bus.freeIrqs.1 as int {
        return Err(IrqExhausted);
      }
      if !hasInterruptEvt {
        return Ok(NO_IRQ);
      }
      bus.minFreeIrq := irq + 1;
      bus.issued := bus.issued + [irq];
      r := Ok(irq as i32);
    }

    /** Default `set_sys_resource`: allocates an IRQ, then records the range and
        the IRQ in the device's descriptor. A failed allocation is reported
        before the descriptor is looked at; a device without a descriptor fails
        after the IRQ (if any) has already been taken from the bus. */
    method SetSysResource(bus: SysBus, regionBase: u64, regionSize: u64) returns (r: Result<()>)
      requires bus.Valid()
      modifies this`sysRes, bus`minFreeIrq, bus`issued
      ensures bus.Valid()
      ensures var a := AllocateIrq(old(bus.minFreeIrq), bus.freeIrqs.1, hasInterruptEvt);
        && bus.minFreeIrq == a.cursor
        && (a.result.Err? ==> r == Err(a.result.error) && sysRes == old(sysRes))
        && (a.result.Ok? && old(sysRes).None? ==> r == Err(MissingSysResource) && sysRes == None)
        && (a.result.Ok? && old(sysRes).Some? ==>
              r == Ok(()) && sysRes == Some(SysRes(regionBase, regionSize, a.result.value)))
      ensures bus.issued == if bus.minFreeIrq != old(bus.minFreeIrq) then old(bus.issued) + [old(bus.minFreeIrq)] else old(bus.issued)
    {
      var irq := SetIrq(bus);
      if irq.Err? {
        return Err(irq.error);
      }
      if sysRes.Some? {
        sysRes := Some(SysRes(regionBase, regionSize, irq.value));
        return Ok(());
      }
      r := Err(MissingSysResource);
    }

    /** Default `reset`: nothing to restore, always succeeds. */
    method Reset() returns (r: Result<()>)
      ensures r == Ok(())
    {
      r := Ok(());
    }
  }

  // ---------------------------------------------------------------------
  // The bus registry
  // ---------------------------------------------------------------------

  class SysBus {
    const sysMem: AddressSpace
    var devices: seq<Device>
    const freeIrqs: (i32, i32)
    /** The next IRQ to hand out. Kept wider than i32 so that it can hold
        `freeIrqs.1 + 1` (see README, Findings). */
    var minFreeIrq: int
    const mmioRegion: (u64, u64)
    /** Set by the constructor and never used afterwards. */
    var minFreeBase: u64
    /** The IRQ numbers handed out so far, in order. */
    ghost var issued: seq<int>

    /** The cursor starts at the low end of the range and, once moved, never
        passes `hi + 1`; the IRQs issued are exactly lo, lo+1, ..., cursor-1. */
    ghost predicate Valid()
      reads this
    {
      var lo := freeIrqs.0 as int;
      && lo <= minFreeIrq
      && (minFreeIrq == lo || minFreeIrq <= freeIrqs.1 as int + 1)
      && |issued| == minFreeIrq - lo
      && forall k :: 0 <= k < |issued| ==> issued[k] == lo + k
    }

    /** `SysBus::new`. */
    constructor (sysMem: AddressSpace, freeIrqs: (i32, i32), mmioRegion: (u64, u64))
      ensures Valid()
      ensures this.sysMem == sysMem && devices == []
      ensures this.freeIrqs == freeIrqs && minFreeIrq == freeIrqs.0 as int
      ensures this.mmioRegion == mmioRegion && minFreeBase == mmioRegion.0
      ensures issued == []
    {
      this.sysMem := sysMem;
      devices := [];
      this.freeIrqs := freeIrqs;
      minFreeIrq := freeIrqs.0 as int;
      this.mmioRegion := mmioRegion;
      minFreeBase := mmioRegion.0;
      issued := [];
    }

    /** The read/write callbacks of a region for `dev`: each forwards the
        buffer, base and offset to the device and returns its answer unchanged. */
    function BuildRegionOps(dev: Device): (ops: RegionOps)
      ensures forall data, base, offset :: ops.read(data, base, offset) == dev.readOp(data, base, offset)
      ensures forall data, base, offset :: ops.write(data, base, offset) == dev.writeOp(data, base, offset)
    {
      RegionOps((data, base, offset) => dev.readOp(data, base, offset),
                (data, base, offset) => dev.writeOp(data, base, offset))
    }

    /** The machine-construction sequence of `set_irq` calls, one per device in
        `devs`, collecting the results: they, and the final cursor, are those of
        `AllocateInOrder` from the cursor the bus had at the start. */
    method SetIrqEach(devs: seq<Device>) returns (rs: seq<Result<i32>>)
      requires Valid()
      modifies this`minFreeIrq, this`issued
      ensures Valid()
      ensures var out := AllocateInOrder(old(minFreeIrq), freeIrqs.1, InterruptEvts(devs));
        rs == out.0 && minFreeIrq == out.1
    {
      ghost var evts := InterruptEvts(devs);
      ghost var c0 := minFreeIrq;
      rs := [];
      var i := 0;
      while i < |devs|
        invariant 0 <= i <= |devs|
        invariant Valid() && c0 <= minFreeIrq
        invariant AllocateInOrder(c0, freeIrqs.1, evts).0 == rs + AllocateInOrder(minFreeIrq, freeIrqs.1, evts[i..]).0
        invariant AllocateInOrder(c0, freeIrqs.1, evts).1 == AllocateInOrder(minFreeIrq, freeIrqs.1, evts[i..]).1
      {
        assert evts[i..][1..] == evts[i + 1..];
        var r := devs[i].SetIrq(this);
        rs := rs + [r];
        i := i + 1;
      }
      assert evts[i..] == [];
    }

    /** `attach_device`: places a region of `regionSize` bytes for `dev` at
        `regionBase` in the memory address space and, only if that succeeds,
        appends `dev` to the registry. On riscv64 the I/O-space arm for serial
        devices is compiled out, so every device goes to the memory space. */
    method AttachDevice(dev: Device, regionBase: u64, regionSize: u64) returns (r: Result<()>)
      requires Valid()
      modifies this`devices, sysMem`subregions
      ensures Valid()
      ensures r.Ok? <==> sysMem.admits(old(sysMem.subregions), regionBase, regionSize)
      ensures r.Ok? ==>
        && r == Ok(())
        && devices == old(devices) + [dev]
        && sysMem.subregions == old(sysMem.subregions) + [Subregion(regionBase, Region(regionSize, BuildRegionOps(dev)))]
      ensures r.Err? ==>
        && r.error == MemoryRegionRejected(regionBase, regionSize)
        && devices == old(devices)
        && sysMem.subregions == old(sysMem.subregions)
      ensures minFreeIrq == old(minFreeIrq) && minFreeBase == old(minFreeBase) && issued == old(issued)
    {
      var regionOps := BuildRegionOps(dev);
      var region := Region(regionSize, regionOps);
      var ok := sysMem.AddSubregion(region, regionBase);
      if !ok {
        return Err(MemoryRegionRejected(regionBase, regionSize));
      }
      devices := devices + [dev];
      r := Ok(());
    }

    /** `attach_dynamic_device`: appends `dev` to the registry and nothing else. */
    method AttachDynamicDevice(dev: Device) returns (r: Result<()>)
      requires Valid()
      modifies this`devices
      ensures Valid()
      ensures r == Ok(()) && devices == old(devices) + [dev]
      ensures minFreeIrq == old(minFreeIrq) && minFreeBase == old(minFreeBase) && issued == old(issued)
    {
      devices := devices + [dev];
      r := Ok(());
    }
  }
}
