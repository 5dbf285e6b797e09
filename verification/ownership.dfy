/**
 * The renderer's ownership bookkeeping (shift/src/rendering_layer/ownership.rs): which
 * session is current, each (monitor, session) surface state, who owns each imported slot,
 * and the releases deferred until the next page flip.
 */
module Ownership {
  import opened Wrappers
  import opened Ids
  import opened Seqs
  import opened RenderState

  class OwnershipManager {
    var currentSession: Option<SessionId>
    var monitorState: map<(MonitorId, SessionId), MonitorSurfaceState>
    var slotOwnership: map<SlotKey, SlotOwner>
    var deferredReleases: seq<DeferredRelease>

    /** The deferred releases never hold the same (monitor, session, buffer) twice. */
    ghost predicate Valid()
      reads this
    {
      NoDuplicates(deferredReleases)
    }

    /** `OwnershipManager::new`. */
    constructor ()
      ensures Valid()
      ensures currentSession == None && monitorState == map[] && slotOwnership == map[] && deferredReleases == []
    {
      currentSession := None;
      monitorState := map[];
      slotOwnership := map[];
      deferredReleases := [];
    }

    method SetCurrentSession(s: Option<SessionId>)
      modifies this
      ensures currentSession == s
      ensures monitorState == old(monitorState) && slotOwnership == old(slotOwnership)
      ensures deferredReleases == old(deferredReleases)
    {
      currentSession := s;
    }

    /**
     * `ensure_current_session_monitors`: every listed monitor gets a default surface state
     * under the current session, without touching a state that already exists.
     */
    method EnsureCurrentSessionMonitors(monitorIds: seq<MonitorId>)
      modifies this
      ensures currentSession.None? ==> monitorState == old(monitorState)
      ensures currentSession.Some? ==>
        monitorState.Keys == old(monitorState).Keys + set m | m in monitorIds :: (m, currentSession.value)
      ensures forall k :: k in old(monitorState) ==> monitorState[k] == old(monitorState)[k]
      ensures forall k :: k in monitorState && k !in old(monitorState) ==> monitorState[k] == DEFAULT_SURFACE
      ensures currentSession == old(currentSession) && slotOwnership == old(slotOwnership)
      ensures deferredReleases == old(deferredReleases)
    {
      if currentSession.None? {
        return;
      }
      var s := currentSession.value;
      var i := 0;
      while i < |monitorIds|
        invariant 0 <= i <= |monitorIds|
        invariant monitorState.Keys == old(monitorState).Keys + set m | m in monitorIds[..i] :: (m, s)
        invariant forall k :: k in old(monitorState) ==> monitorState[k] == old(monitorState)[k]
        invariant forall k :: k in monitorState && k !in old(monitorState) ==> monitorState[k] == DEFAULT_SURFACE
        invariant currentSession == old(currentSession) && slotOwnership == old(slotOwnership)
        invariant deferredReleases == old(deferredReleases)
      {
        assert monitorIds[..i + 1] == monitorIds[..i] + [monitorIds[i]];
        if (monitorIds[i], s) !in monitorState {
          monitorState := monitorState[(monitorIds[i], s) := DEFAULT_SURFACE];
        }
        i := i + 1;
      }
      assert monitorIds[..i] == monitorIds;
    }

    /**
     * `current_slot_key_for_session`: the slot session `s` shows on monitor `m`, if its
     * surface state there has a current buffer.
     */
    function CurrentSlotKeyForSession(m: MonitorId, s: SessionId): (r: Option<SlotKey>)
      reads this
      ensures r.Some? <==> (m, s) in monitorState && monitorState[(m, s)].current.Some?
      ensures r.Some? ==> r.value.monitor == m && r.value.session == s && r.value.buffer == monitorState[(m, s)].current.value
    {
      if (m, s) in monitorState && monitorState[(m, s)].current.Some? then
        Some(SlotKey(m, s, monitorState[(m, s)].current.value))
      else None
    }

    /** `current_slot_key`: the slot the current session shows on monitor `m`. */
    function CurrentSlotKey(m: MonitorId): (r: Option<SlotKey>)
      reads this
      ensures currentSession.None? ==> r.None?
      ensures currentSession.Some? ==> r == CurrentSlotKeyForSession(m, currentSession.value)
    {
      if currentSession.None? then None else CurrentSlotKeyForSession(m, currentSession.value)
    }

    /** `state`: the surface state of session `s` on monitor `m`. */
    function SurfaceState(m: MonitorId, s: SessionId): (r: Option<MonitorSurfaceState>)
      reads this
      ensures r.Some? <==> (m, s) in monitorState
      ensures r.Some? ==> r.value == monitorState[(m, s)]
    {
      if (m, s) in monitorState then Some(monitorState[(m, s)]) else None
    }

    /**
     * A write through `state_entry` (the swap and fence helpers that use it are not part of
     * this model): the state is created if missing and replaced by `st`.
     */
    method StoreSurfaceState(m: MonitorId, s: SessionId, st: MonitorSurfaceState)
      modifies this
      ensures monitorState == old(monitorState)[(m, s) := st]
      ensures currentSession == old(currentSession) && slotOwnership == old(slotOwnership)
      ensures deferredReleases == old(deferredReleases)
    {
      monitorState := monitorState[(m, s) := st];
    }

    /** `owner`. */
    function Owner(key: SlotKey): (r: Option<SlotOwner>)
      reads this
      ensures r.Some? <==> key in slotOwnership
      ensures r.Some? ==> r.value == slotOwnership[key]
    {
      if key in slotOwnership then Some(slotOwnership[key]) else None
    }

    /** `set_owner`: `key` is owned by `o` afterwards and no other slot changes owner. */
    method SetOwner(key: SlotKey, o: SlotOwner)
      modifies this
      ensures slotOwnership == old(slotOwnership)[key := o]
      ensures Owner(key) == Some(o)
      ensures forall k :: k != key ==> Owner(k) == old(Owner(k))
      ensures currentSession == old(currentSession) && monitorState == old(monitorState)
      ensures deferredReleases == old(deferredReleases)
    {
      slotOwnership := slotOwnership[key := o];
    }

    /** `mark_slot_client_owned`: `set_owner(key, ClientOwned)`. */
    method MarkSlotClientOwned(key: SlotKey)
      modifies this
      ensures slotOwnership == old(slotOwnership)[key := ClientOwned]
      ensures currentSession == old(currentSession) && monitorState == old(monitorState)
      ensures deferredReleases == old(deferredReleases)
    {
      SetOwner(key, ClientOwned);
    }

    /**
     * `queue_buffer_release`: the release is appended unless the same one is already
     * queued, so the queue stays free of duplicates.
     */
    method QueueBufferRelease(m: MonitorId, s: SessionId, b: BufferSlot)
      requires Valid()
      modifies this
      ensures Valid()
      ensures DeferredRelease(m, s, b) in old(deferredReleases) ==> deferredReleases == old(deferredReleases)
      ensures DeferredRelease(m, s, b) !in old(deferredReleases) ==>
        deferredReleases == old(deferredReleases) + [DeferredRelease(m, s, b)]
      ensures DeferredRelease(m, s, b) in deferredReleases
      ensures currentSession == old(currentSession) && monitorState == old(monitorState)
      ensures slotOwnership == old(slotOwnership)
    {
      var item := DeferredRelease(m, s, b);
      if item in deferredReleases {
        return;
      }
      AppendKeepsNoDuplicates(deferredReleases, item);
      deferredReleases := deferredReleases + [item];
    }

    /** `take_deferred_releases`: the queue, in the order it was filled, leaving it empty. */
    method TakeDeferredReleases() returns (items: seq<DeferredRelease>)
      requires Valid()
      modifies this
      ensures Valid()
      ensures items == old(deferredReleases) && NoDuplicates(items)
      ensures deferredReleases == []
      ensures currentSession == old(currentSession) && monitorState == old(monitorState)
      ensures slotOwnership == old(slotOwnership)
    {
      items := deferredReleases;
      deferredReleases := [];
    }

    /** `cleanup_monitor`: every owner, deferred release and surface state of monitor `m` goes. */
    method CleanupMonitor(m: MonitorId)
      requires Valid()
      modifies this
      ensures Valid()
      ensures forall k :: k in slotOwnership <==> k in old(slotOwnership) && k.monitor != m
      ensures forall k :: k in slotOwnership ==> slotOwnership[k] == old(slotOwnership)[k]
      ensures deferredReleases == Filter(old(deferredReleases), (d: DeferredRelease) => d.monitor != m)
      ensures forall d :: d in deferredReleases <==> d in old(deferredReleases) && d.monitor != m
      ensures forall k :: k in monitorState <==> k in old(monitorState) && k.0 != m
      ensures forall k :: k in monitorState ==> monitorState[k] == old(monitorState)[k]
      ensures currentSession == old(currentSession)
    {
      slotOwnership := map k | k in slotOwnership && k.monitor != m :: slotOwnership[k];
      FilterKeepsNoDuplicates(deferredReleases, (d: DeferredRelease) => d.monitor != m);
      deferredReleases := Filter(deferredReleases, (d: DeferredRelease) => d.monitor != m);
      monitorState := map k | k in monitorState && k.0 != m :: monitorState[k];
    }

    /** `cleanup_session`: every owner, surface state and deferred release of session `s` goes. */
    method CleanupSession(s: SessionId)
      requires Valid()
      modifies this
      ensures Valid()
      ensures forall k :: k in slotOwnership <==> k in old(slotOwnership) && k.session != s
      ensures forall k :: k in slotOwnership ==> slotOwnership[k] == old(slotOwnership)[k]
      ensures deferredReleases == Filter(old(deferredReleases), (d: DeferredRelease) => d.session != s)
      ensures forall d :: d in deferredReleases <==> d in old(deferredReleases) && d.session != s
      ensures forall k :: k in monitorState <==> k in old(monitorState) && k.1 != s
      ensures forall k :: k in monitorState ==> monitorState[k] == old(monitorState)[k]
      ensures currentSession == old(currentSession)
    {
      slotOwnership := map k | k in slotOwnership && k.session != s :: slotOwnership[k];
      monitorState := map k | k in monitorState && k.1 != s :: monitorState[k];
      FilterKeepsNoDuplicates(deferredReleases, (d: DeferredRelease) => d.session != s);
      deferredReleases := Filter(deferredReleases, (d: DeferredRelease) => d.session != s);
    }
  }
}
