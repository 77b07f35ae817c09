/** Kernel trace records and the fields packed into their `debugid`. */
module Kdebug {
  import opened Credits
  import opened Tallies

  newtype Cpu = x: int | 0 <= x <= 0xFFFF_FFFF

  type U32 = x: int | 0 <= x <= 0xFFFF_FFFF

  datatype KdBuf = KdBuf(
    timestamp: U64, arg1: U64, arg2: U64, arg3: U64, arg4: U64, arg5: U64, debugid: U32, cpuid: Cpu)

  const DBG_MACH := 1
  const DBG_MACH_SCHED := 0x40
  const DBG_PERF := 37

  function Class(d: U32): int { d / 0x100_0000 }

  function Subclass(d: U32): int { d / 0x1_0000 % 0x100 }

  function Code(d: U32): int { d / 4 % 0x4000 }

  function Func(d: U32): int { d % 4 }

  /** The low 56 bits; the kernel packs the cpu into the high 8. */
  function Time(rec: KdBuf): U64 { rec.timestamp % 0x100_0000_0000_0000 }

  /** `x as u32`. */
  function Low32(x: U64): U32 { x % 0x1_0000_0000 }
}
