/**
 * The renderer's value types (shift/src/rendering_layer/state.rs): the two buffer slots of
 * a client swapchain, the key of one imported buffer, a monitor's surface state, a
 * deferred release and who owns a slot.
 */
module RenderState {
  import opened Wrappers
  import opened Ids
  import Comms

  datatype BufferSlot = Zero | One

  /** `SlotKey::new` is the constructor: one imported buffer of a session on a monitor. */
  datatype SlotKey = SlotKey(monitor: MonitorId, session: SessionId, buffer: BufferSlot)

  /** The slot on screen and the slot waiting for its acquire fence, if any. */
  datatype MonitorSurfaceState = MonitorSurfaceState(current: Option<BufferSlot>, pending: Option<BufferSlot>)

  /** `MonitorSurfaceState::default()`. */
  const DEFAULT_SURFACE := MonitorSurfaceState(None, None)

  datatype DeferredRelease = DeferredRelease(monitor: MonitorId, session: SessionId, buffer: BufferSlot)

  datatype SlotOwner = ClientOwned | ShiftOwned

  /** A fence waiter reporting that the acquire fence of `key` signaled. */
  datatype FenceEvent = Signaled(key: SlotKey)

  /** `BufferSlot::from_index`: only the first two dma-buf indices name a slot. */
  function FromIndex(idx: nat): (r: Option<BufferSlot>)
    ensures r.Some? <==> idx < 2
    ensures r == Some(Zero) <==> idx == 0
    ensures r == Some(One) <==> idx == 1
  {
    match idx
    case 0 => Some(Zero)
    case 1 => Some(One)
    case _ => None
  }

  /** `From<BufferIndex> for BufferSlot`. */
  function SlotOfIndex(b: Comms.BufferIndex): (s: BufferSlot)
    ensures s == Zero <==> b == Comms.BufferIndex.Zero
  {
    match b
    case Zero => Zero
    case One => One
  }

  /** `From<BufferSlot> for BufferIndex`. */
  function IndexOfSlot(s: BufferSlot): (b: Comms.BufferIndex)
    ensures b == Comms.BufferIndex.Zero <==> s == Zero
  {
    match s
    case Zero => Comms.BufferIndex.Zero
    case One => Comms.BufferIndex.One
  }

  /** The two conversions are inverse to each other, so both are bijections. */
  lemma SlotIndexRoundTrip(b: Comms.BufferIndex, s: BufferSlot)
    ensures IndexOfSlot(SlotOfIndex(b)) == b
    ensures SlotOfIndex(IndexOfSlot(s)) == s
  {
  }

  /** `from_index` agrees with the protocol's numbering of buffers. */
  lemma FromIndexNumbersSlots(s: BufferSlot)
    ensures FromIndex(if s == Zero then 0 else 1) == Some(s)
  {
  }
}
