/** Types shared by the modules about slots and the streams bound to them. */
module SlotTypes {
  datatype SlotState = Connecting | Ready | Draining | Dead

  /** Why a slot was torn down. */
  datatype Cause = Natural | AgeCut | NetworkChange | PreemptiveRotation | DrainTeardown

  /** Wait before the next drain attempt on a slot whose started drain was reverted (nanoseconds). */
  const REVERT_BACKOFF: nat := 30_000_000_000

  /** The floor-clamped decrement of a stream counter. */
  function Decremented(n: int): int {
    if n <= 0 then n else n - 1
  }

  /** A stream's binding to a cell. */
  datatype Entry = Entry(slotIdx: int, lastWrite: int, migrating: bool, scheduled: bool)
}
