# System bus registry and IRQ allocator (riscv64)

A Dafny model of the system bus of a virtual machine monitor
(`sysbus/src/lib.rs`). The bus holds the shared guest memory address space,
the ordered list of attached devices, an inclusive range of IRQ numbers
`free_irqs = (lo, hi)` with a cursor `min_free_irq`, and an MMIO range with a
cursor `min_free_base` that is set once and never used. Devices implement the
`SysBusDevOps` operations. Their default methods hold the bus policy: `set_irq`
hands out IRQ numbers first-come-first-served, and `set_sys_resource` records
a device's range and IRQ in its `SysRes` descriptor.

Everything is in `sysbus.dfy`, module `Sysbus`:

- `SysBus` is a class. `AttachDevice`, `AttachDynamicDevice` and the IRQ
  allocation update its fields in place. Its `Valid()` invariant says the
  cursor starts at `lo`, never passes `hi + 1` once it has moved, and the ghost
  field `issued` records the IRQs handed out: exactly `lo, lo+1, …, cursor-1`.
- `Device` is a class. It stands for one device behind its shared handle. Its
  type tag, interrupt event (reduced to "has one or not"), `read` and `write`
  are fixed when it is built. Its optional `SysRes` descriptor is updated in
  place. The registry's `devices` is a `seq<Device>` of references.
- `AddressSpace` is the external address-space collaborator. Whether a region
  may be placed is decided by its `admits` function. Its overlap algorithm is
  not part of this model.
- `AllocateIrq` is one default `set_irq` call as a function, and
  `AllocateInOrder` is a run of such calls over devices in call order. The
  lemmas about them state what the allocator promises across many calls.

The target is riscv64. The guard `cfg!(target_arch = "x86_64")` on the serial
arm of `attach_device` is false there, so every device's region goes to the
memory address space. The `Plic` type tag is present, and the IRQ range
constants are `IRQ_BASE = 1` and `IRQ_MAX = 1024`.

Two consequences of the code's order of operations:

- `set_sys_resource` on a device without a descriptor fails only after
  `set_irq` has run, so a device with an interrupt event has already taken an
  IRQ and moved the cursor (`Device.SetSysResource`).
- `attach_device` allocates no IRQ; callers do that with `set_sys_resource`,
  and `AttachDevice` leaves both cursors untouched.

`SysBus.SetIrqEach` stands for the machine-construction code that calls
`set_irq` once per device: its results and final cursor are exactly those of
`AllocateInOrder`, so the lemmas about `AllocateInOrder` speak about real runs
of `Device.SetIrq` on one bus.

## Model

| member | source | states |
|---|---|---|
| `Sysbus.SysBus.constructor` | sysbus/src/lib.rs:58-71 | A new bus has no devices and keeps both ranges as given. The IRQ cursor starts at `free_irqs.0`, the base cursor at `mmio_region.0`. No IRQ has been issued and the invariant holds. |
| `Sysbus.SysBus.BuildRegionOps` | sysbus/src/lib.rs:73-88 | For every buffer, base and offset, the region's read and write callbacks return exactly what the device's `read`/`write` returns, including a rejection (`false`). |
| `Sysbus.SysBus.AttachDevice` | sysbus/src/lib.rs:90-128 | Succeeds exactly when the memory address space admits the region. On success, `devices` is the old list with `dev` appended and the address space gains the region of `regionSize` bytes at `regionBase`, backed by `dev`'s adapters. On failure, the error carries base and size and neither the list nor the address space changes. The IRQ and base cursors never change. |
| `Sysbus.SysBus.AttachDynamicDevice` | sysbus/src/lib.rs:130-136 | Always succeeds, appends exactly `dev` to `devices` and changes nothing else. |
| `Sysbus.DefaultSysRes` | sysbus/src/lib.rs:146-154 | The default descriptor is an empty range at 0 that carries the no-IRQ sentinel -1. |
| `Sysbus.Device.constructor` | sysbus/src/lib.rs:171-188 | A device that overrides the defaults gets the type tag, interrupt event, descriptor and read/write behaviour it was built with. |
| `Sysbus.Device.WithDefaults` | sysbus/src/lib.rs:194-236 | A device that keeps the trait defaults has no interrupt event, no resource descriptor and the type tag `Others`. |
| `Sysbus.AllocateIrq` | sysbus/src/lib.rs:198-212 | "IRQ number exhausted" exactly when the cursor is past `hi`. Otherwise -1 for a device without an interrupt event and the cursor for one with an event. The cursor moves up by one exactly when an IRQ is assigned. |
| `Sysbus.AllocateIrqAsWritten` | sysbus/src/lib.rs:198-212 | The same step with an i32 cursor advanced by `irq + 1`: exhausted exactly when the cursor is past `hi`, -1 for a device without an event, otherwise the cursor, which then moves up by one and wraps from `i32::MAX` to `i32::MIN`. |
| `Sysbus.SysBus.SetIrqEach` | sysbus/src/lib.rs:198-212 | Calling `set_irq` once per device, in order, on one bus gives exactly the results and the final cursor of `AllocateInOrder` from the starting cursor, and keeps the bus invariant. |
| `Sysbus.Device.SetIrq` | sysbus/src/lib.rs:198-212 | The result and the new cursor are those of one allocation at the old cursor. "IRQ number exhausted" exactly when the cursor is past `hi`, with the cursor unchanged. -1 without moving the cursor for a device without an interrupt event. Otherwise the old cursor is returned and the cursor moves up by one. The bus invariant is kept, the IRQ returned is appended to `issued`, and nothing else on the bus changes. |
| `Sysbus.AllocateInOrderResults` | sysbus/src/lib.rs:198-212 | In a run of `set_irq` calls, call i gives what one call gives with the cursor moved up by the number of earlier devices that have an interrupt event. The final cursor has moved up by the number of devices with an event, capped at `hi + 1`, and not at all if the range was exhausted from the start. |
| `Sysbus.IrqsAreConsecutive` | sysbus/src/lib.rs:198-212 | N devices that all have an interrupt event, starting at cursor c, get c, c+1, …, c+N-1 while these stay within `hi`, and "IRQ number exhausted" after that. |
| `Sysbus.AssignedIrqsDistinctInRange` | sysbus/src/lib.rs:199-210 | Every IRQ handed out lies between the starting cursor and `hi`, and later devices get strictly larger numbers, so no IRQ is handed out twice. |
| `Sysbus.ExhaustionIsPermanent` | sysbus/src/lib.rs:199-202 | Once one call reports exhaustion, every later call reports it too, including calls for devices without an interrupt event. |
| `Sysbus.NoIrqSentinelMeansNoEvent` | sysbus/src/lib.rs:204-205 | For a range starting at 0 or above, a result of -1 is returned exactly to the devices without an interrupt event that were served before the range ran out. |
| `Sysbus.RiscvIrqRange` | sysbus/src/lib.rs:27-31 | With the riscv64 range 1..1024, IRQ 0 is never handed out and no IRQ is above 1024. A call fails exactly when 1024 earlier devices with an interrupt event have been served. |
| `Sysbus.CursorWrapsAtI32Max` | sysbus/src/lib.rs:208 | With the cursor stored in an i32 and the range `(i32::MAX, i32::MAX)`, the second device with an event gets `i32::MIN`. The wider cursor used by the model refuses that call as exhausted. |
| `Sysbus.Device.SetSysResource` | sysbus/src/lib.rs:218-232 | If `set_irq` fails, its error is returned and the descriptor is untouched. If the device has no descriptor, the call fails with "Failed to get sys resource" after the cursor has already moved as `set_irq` moved it. Otherwise it succeeds and the descriptor holds the given base and size and the IRQ `set_irq` returned. |
| `Sysbus.Device.Reset` | sysbus/src/lib.rs:238-240 | The default reset always succeeds. |

## Left out

- `ioeventfds` and `Region::set_ioeventfds`: the kernel write fast path. The default list is empty and nothing in the bus logic depends on it.
- The interrupt event handle and its registration with the hypervisor (`register_irqfd`, commented out at line 207). `interrupt_evt` is reduced to whether the device has an event, so the model has no registration failure path.
- The x86_64 I/O-space branch of `attach_device`. It is compiled out on riscv64 and names a field the bus does not have, so the type tag has no effect on where a region goes.
- The `Mutex` locking and `Arc` sharing around devices and the address space. They serve vCPU concurrency, which is not modelled: device handles are plain object references and the adapters delegate directly.
- `Sysbus.SysBus.BuildRegionOps`: a device's `read` and `write` are modelled as fixed functions of buffer, base and offset, so changes that a device makes to its own state during an access are not captured. Device-specific `read`, `write` and `reset` behaviour is not part of this model.
- `ReadOutcome`: the buffer a device's `read` returns is not tied to the length of the buffer it was given, although a Rust `&mut [u8]` cannot change length; no contract depends on it.
- The address space's overlap and range checks (`add_subregion`). They belong to a crate that is not part of this model, so they stand behind the `admits` function.
- `get_sys_resource`, `get_type` and `interrupt_evt` are not separate members. Their defaults (`None`, `Others`, no event) are the `Device.WithDefaults` constructor, and an overriding device fixes them at construction.
- The `fmt::Debug` implementation, the commented-out AML builder and the process entry point `src/main.rs` (command line, logging, daemonizing, event loop).

## Findings

| source | as written | input that shows it | evidently intended | confidence | as-written member | corrected member |
|---|---|---|---|---|---|---|
| sysbus/src/lib.rs:208 | `sysbus.min_free_irq = irq + 1` on an `i32` cursor | `free_irqs = (i32::MAX, i32::MAX)` and two devices with an interrupt event: the cursor wraps to `i32::MIN` in a release build (a debug build panics), and the second device gets `i32::MIN`, outside the range | the second call fails with "IRQ number exhausted." and every IRQ handed out lies in the range | not executed; low impact, because it needs a range that ends at `i32::MAX` and riscv64 uses 1..1024 | `Sysbus.CursorWrapsAtI32Max`, `Sysbus.AllocateIrqAsWritten` | `Sysbus.AssignedIrqsDistinctInRange` |

The corrected behaviour keeps `SysBus.minFreeIrq` as an unbounded integer, so
it can hold `hi + 1`. `AllocateIrq`, `Device.SetIrq` and every lemma above use
this cursor.
