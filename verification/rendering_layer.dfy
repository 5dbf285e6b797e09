/**
 * The rendering layer's bookkeeping (shift/src/rendering_layer/mod.rs, commands.rs,
 * fence_runtime.rs and render_core.rs): the monitors it knows, the client buffers it has
 * imported, the fence waits it has armed, the transition in progress, and the events it
 * sends to the server, which are appended to `events`.
 *
 * GPU textures are opaque values.  What the DRM device reports (its monitors, which of them
 * can be drawn, which were flipped, how many connectors committed, the render fence) and
 * what the GPU import produced are parameters.  The surface-state transitions of
 * `apply_swap_request` and `apply_acquire_fence_signaled` are not part of this model: their
 * reports (which buffers to release) are parameters.
 */
module Rendering {
  import opened Wrappers
  import opened Ids
  import opened Seqs
  import opened Comms
  import opened RenderState
  import opened Ownership
  import opened FenceSchedule
  import opened Transition

  /** An imported dma-buf texture, opaque to the bookkeeping. */
  datatype Texture = Texture(handle: nat)

  /** What `apply_swap_request` reports: a pending buffer it displaced and a buffer to release. */
  datatype SwapTransition = SwapTransition(canceledPending: Option<BufferSlot>, previousToRelease: Option<BufferSlot>)

  /** What one monitor shows in a frame. */
  datatype Drawing =
    | Animated(fromKey: SlotKey, toKey: SlotKey, progress: real)
    | Fullscreen(key: SlotKey)
    | Blank

  datatype MonitorFrame = MonitorFrame(monitor: MonitorId, drawing: Drawing)

  /** The layer's own fields, for stating what an operation leaves unchanged. */
  datatype LayerState = LayerState(
    knownMonitors: map<MonitorId, Monitor>,
    slots: map<SlotKey, Texture>,
    fenceTasks: map<SlotKey, FenceTaskHandle>,
    activeTransition: Option<ActiveTransition>,
    events: seq<RenderEvt>)

  /** The handles armed for `keys`. */
  function HandlesOf(tasks: map<SlotKey, FenceTaskHandle>, keys: set<SlotKey>): (hs: set<FenceTaskHandle>)
    ensures forall k :: k in keys && k in tasks ==> tasks[k] in hs
    ensures forall h :: h in hs ==> exists k :: k in keys && k in tasks && tasks[k] == h
  {
    set k | k in keys && k in tasks :: tasks[k]
  }

  /** Cancelling one more key of `keys` removes its handle from what remains. */
  lemma CancelStep<C, T>(tasks: map<SlotKey, FenceTaskHandle>, callbacks: map<FenceTaskHandle, C>,
                         waits: map<FenceTaskHandle, T>, keys: set<SlotKey>, rest: set<SlotKey>, k: SlotKey)
    requires k in rest && rest <= keys && k in tasks
    ensures (tasks - (keys - rest)) - {k} == tasks - (keys - (rest - {k}))
    ensures (callbacks - HandlesOf(tasks, keys - rest)) - {tasks[k]} == callbacks - HandlesOf(tasks, keys - (rest - {k}))
    ensures (waits - HandlesOf(tasks, keys - rest)) - {tasks[k]} == waits - HandlesOf(tasks, keys - (rest - {k}))
  {
    assert HandlesOf(tasks, keys - (rest - {k})) == HandlesOf(tasks, keys - rest) + {tasks[k]};
  }

  /** The release fence handed out with each consumed buffer: only a valid descriptor is passed on. */
  function ReleaseFence(fd: int): (f: Option<Fence>)
    ensures f.Some? <==> fd >= 0
  {
    if fd >= 0 then Some(Fence(fd)) else None
  }

  /** One `BufferConsumed` per released buffer, in queue order. */
  function ConsumedEvents(items: seq<DeferredRelease>, fence: Option<Fence>): (es: seq<RenderEvt>)
    ensures |es| == |items|
    ensures forall i :: 0 <= i < |items| ==>
      es[i] == BufferConsumed(items[i].session, items[i].monitor, IndexOfSlot(items[i].buffer), fence)
  {
    seq(|items|, i requires 0 <= i < |items| =>
      BufferConsumed(items[i].session, items[i].monitor, IndexOfSlot(items[i].buffer), fence))
  }

  lemma OnlineStep(ms: seq<Monitor>, i: nat, known: set<MonitorId>)
    requires i < |ms|
    ensures OnlineEvents(ms[..i + 1], known) ==
      OnlineEvents(ms[..i], known) + (if ms[i].id !in known then [MonitorOnline(ms[i])] else [])
  {
    assert ms[..i + 1][..i] == ms[..i];
  }

  /** The announcements after one more reported monitor, on top of an earlier log. */
  lemma OnlineAfter(before: seq<RenderEvt>, ms: seq<Monitor>, i: nat, known: set<MonitorId>)
    requires i < |ms|
    ensures before + OnlineEvents(ms[..i + 1], known) ==
      before + OnlineEvents(ms[..i], known) + (if ms[i].id !in known then [MonitorOnline(ms[i])] else [])
  {
    OnlineStep(ms, i, known);
  }

  /** The monitor map of one more reported monitor: that monitor is filed under its id. */
  lemma MonitorMapStep(ms: seq<Monitor>, i: nat)
    requires i < |ms|
    ensures MonitorMap(ms[..i + 1]) == MonitorMap(ms[..i])[ms[i].id := ms[i]]
  {
    assert ms[..i + 1][..i] == ms[..i];
  }

  /** The slot a deferred release gives back. */
  function ReleasedKey(d: DeferredRelease): SlotKey
  {
    SlotKey(d.monitor, d.session, d.buffer)
  }

  /** The position of a slot among a link's dma-bufs (the inverse of `from_index`). */
  function SlotNumber(s: BufferSlot): (n: nat)
    ensures FromIndex(n) == Some(s)
  {
    match s
    case Zero => 0
    case One => 1
  }

  /**
   * The buffers a framebuffer link imports, given how many dma-bufs it carried and the
   * outcome of each GPU import: only the first two positions name a slot, and a failed
   * import is skipped.
   */
  function ImportedSlots(dmaBufCount: nat, imports: seq<Option<Texture>>): (got: map<BufferSlot, Texture>)
    ensures forall s :: s in got <==> SlotNumber(s) < dmaBufCount && SlotNumber(s) < |imports| && imports[SlotNumber(s)].Some?
    ensures forall s :: s in got ==> got[s] == imports[SlotNumber(s)].value
  {
    map s: BufferSlot | SlotNumber(s) < dmaBufCount && SlotNumber(s) < |imports| && imports[SlotNumber(s)].Some? ::
      imports[SlotNumber(s)].value
  }

  /** The imported buffers of `session` on monitor `m`, as slot keys. */
  function LinkedSlots(m: MonitorId, session: SessionId, got: map<BufferSlot, Texture>): (r: map<SlotKey, Texture>)
    ensures forall k :: k in r <==> k.monitor == m && k.session == session && k.buffer in got
    ensures forall k :: k in r ==> r[k] == got[k.buffer]
  {
    map s | s in got :: SlotKey(m, session, s) := got[s]
  }

  /** Every key in `keys` owned by its client. */
  function ClientOwnedAll(keys: set<SlotKey>): (r: map<SlotKey, SlotOwner>)
    ensures r.Keys == keys && forall k :: k in r ==> r[k] == ClientOwned
  {
    map k | k in keys :: ClientOwned
  }

  /** The slots a list of deferred releases gives back. */
  function ReleasedKeys(items: seq<DeferredRelease>): (r: set<SlotKey>)
    ensures forall d :: d in items ==> ReleasedKey(d) in r
    ensures forall k :: k in r ==> exists d :: d in items && ReleasedKey(d) == k
  {
    set d | d in items :: ReleasedKey(d)
  }

  /**
   * The monitor a framebuffer link names, when its id parses and the DRM device has it;
   * anything else is ignored.
   */
  function LinkedMonitor(payload: FramebufferLinkPayload, drmMonitors: seq<MonitorId>): (r: Option<MonitorId>)
    ensures r.Some? <==> ParseMonitorId(payload.monitorId).Ok? && ParseMonitorId(payload.monitorId).value in drmMonitors
    ensures r.Some? ==> r.value == ParseMonitorId(payload.monitorId).value
  {
    match ParseMonitorId(payload.monitorId)
    case Ok(m) => if m in drmMonitors then Some(m) else None
    case Err(_) => None
  }

  lemma ClientOwnedStep(owners: map<SlotKey, SlotOwner>, keys: set<SlotKey>, k: SlotKey)
    ensures (owners + ClientOwnedAll(keys))[k := ClientOwned] == owners + ClientOwnedAll(keys + {k})
  {
  }

  lemma ReleasedStep(items: seq<DeferredRelease>, i: nat, fence: Option<Fence>)
    requires i < |items|
    ensures ReleasedKeys(items[..i + 1]) == ReleasedKeys(items[..i]) + {ReleasedKey(items[i])}
    ensures ConsumedEvents(items[..i + 1], fence) ==
      ConsumedEvents(items[..i], fence) + [BufferConsumed(items[i].session, items[i].monitor, IndexOfSlot(items[i].buffer), fence)]
  {
    assert items[..i + 1] == items[..i] + [items[i]];
  }

  /** The event log after one more consumed release, on top of an earlier log. */
  lemma ConsumedAfter(before: seq<RenderEvt>, items: seq<DeferredRelease>, i: nat, fence: Option<Fence>)
    requires i < |items|
    ensures before + ConsumedEvents(items[..i + 1], fence) ==
      before + ConsumedEvents(items[..i], fence) + [BufferConsumed(items[i].session, items[i].monitor, IndexOfSlot(items[i].buffer), fence)]
  {
    ReleasedStep(items, i, fence);
  }

  /** The map a list of (slot, texture) pairs builds when inserted in order. */
  function PairsMap(ps: seq<(BufferSlot, Texture)>): map<BufferSlot, Texture>
  {
    if ps == [] then map[] else PairsMap(ps[..|ps| - 1])[ps[|ps| - 1].0 := ps[|ps| - 1].1]
  }

  lemma PairsMapStep(ps: seq<(BufferSlot, Texture)>, j: nat)
    requires j < |ps|
    ensures PairsMap(ps[..j + 1]) == PairsMap(ps[..j])[ps[j].0 := ps[j].1]
  {
    assert ps[..j + 1][..j] == ps[..j];
  }

  /** The import loop of `import_framebuffers` over one link's dma-bufs. */
  method CollectImports(dmaBufs: seq<Fence>, imports: seq<Option<Texture>>) returns (imported: seq<(BufferSlot, Texture)>)
    ensures PairsMap(imported) == ImportedSlots(|dmaBufs|, imports)
  {
    imported := [];
    var idx := 0;
    while idx < |dmaBufs|
      invariant 0 <= idx <= |dmaBufs|
      invariant PairsMap(imported) == ImportedSlots(idx, imports)
    {
      var slot := FromIndex(idx);
      if slot.Some? && idx < |imports| && imports[idx].Some? {
        assert (imported + [(slot.value, imports[idx].value)])[..|imported|] == imported;
        assert ImportedSlots(idx + 1, imports) == ImportedSlots(idx, imports)[slot.value := imports[idx].value];
        imported := imported + [(slot.value, imports[idx].value)];
      } else {
        assert ImportedSlots(idx + 1, imports) == ImportedSlots(idx, imports);
      }
      idx := idx + 1;
    }
  }

  lemma LinkedStep(slots: map<SlotKey, Texture>, owners: map<SlotKey, SlotOwner>, m: MonitorId, session: SessionId,
                   done: map<BufferSlot, Texture>, b: BufferSlot, t: Texture)
    ensures (slots + LinkedSlots(m, session, done))[SlotKey(m, session, b) := t] == slots + LinkedSlots(m, session, done[b := t])
    ensures (owners + ClientOwnedAll(LinkedSlots(m, session, done).Keys))[SlotKey(m, session, b) := ClientOwned] ==
      owners + ClientOwnedAll(LinkedSlots(m, session, done[b := t]).Keys)
  {
    var key := SlotKey(m, session, b);
    var before := LinkedSlots(m, session, done);
    LinkedSlotsUpdate(m, session, done, b, t);
    assert LinkedSlots(m, session, done[b := t]).Keys == before.Keys + {key};
    ClientOwnedStep(owners, before.Keys, key);
  }

  /** Linking one more buffer adds exactly its slot key. */
  lemma LinkedSlotsUpdate(m: MonitorId, session: SessionId, done: map<BufferSlot, Texture>, b: BufferSlot, t: Texture)
    ensures LinkedSlots(m, session, done[b := t]) == LinkedSlots(m, session, done)[SlotKey(m, session, b) := t]
  {
    var key := SlotKey(m, session, b);
    var before, after := LinkedSlots(m, session, done), LinkedSlots(m, session, done[b := t]);
    var expected := before[key := t];
    forall k
      ensures k in after <==> k in expected
    {
    }
    forall k | k in after
      ensures after[k] == expected[k]
    {
    }
    assert after == expected;
  }

  /** One `MonitorOnline` per listed monitor the renderer did not know, in list order. */
  function OnlineEvents(ms: seq<Monitor>, known: set<MonitorId>): (es: seq<RenderEvt>)
    ensures forall e :: e in es ==> e.MonitorOnline? && e.monitor in ms && e.monitor.id !in known
    ensures forall mon :: mon in ms && mon.id !in known ==> MonitorOnline(mon) in es
    decreases |ms|
  {
    if ms == [] then []
    else
      var last := ms[|ms| - 1];
      assert forall mon :: mon in ms ==> mon in ms[..|ms| - 1] || mon == last;
      OnlineEvents(ms[..|ms| - 1], known) + (if last.id !in known then [MonitorOnline(last)] else [])
  }

  /** One `MonitorOffline` per removed monitor, in the order they were removed. */
  function OfflineEvents(ids: seq<MonitorId>): (es: seq<RenderEvt>)
    ensures |es| == |ids|
    ensures forall i :: 0 <= i < |ids| ==> es[i] == MonitorOffline(ids[i])
  {
    seq(|ids|, i requires 0 <= i < |ids| => MonitorOffline(ids[i]))
  }

  /** Every slot a drawing shows is imported and owned by shift, not by its client. */
  predicate ShowsShiftOwned(d: Drawing, slots: map<SlotKey, Texture>, owners: map<SlotKey, SlotOwner>)
  {
    match d
    case Animated(fromKey, toKey, _) =>
      && fromKey in slots && fromKey in owners && owners[fromKey] == ShiftOwned
      && toKey in slots && toKey in owners && owners[toKey] == ShiftOwned
    case Fullscreen(key) => key in slots && key in owners && owners[key] == ShiftOwned
    case Blank => true
  }

  /** The monitors a frame covers. */
  function FrameMonitors(frame: seq<MonitorFrame>): set<MonitorId>
  {
    set f | f in frame :: f.monitor
  }

  /** Two maps that agree outside `t` agree outside any wider set. */
  lemma SameOutsideWider<K, V>(a: map<K, V>, b: map<K, V>, t: set<K>, u: set<K>)
    requires a - t == b - t
    requires t <= u
    ensures a - u == b - u
  {
    assert forall k :: k in a - u ==> k in a - t;
    assert forall k :: k in b - u ==> k in b - t;
  }

  class RenderingLayer {
    var knownMonitors: map<MonitorId, Monitor>
    const ownership: OwnershipManager
    var slots: map<SlotKey, Texture>
    const fenceScheduler: FenceScheduler
    var fenceTasks: map<SlotKey, FenceTaskHandle>
    /** The names the animation registry knows. */
    const animations: set<string>
    var activeTransition: Option<ActiveTransition>
    var events: seq<RenderEvt>

    ghost predicate Valid()
      reads this, ownership, fenceScheduler
    {
      ownership.Valid() && fenceScheduler.Valid()
    }

    ghost function Layer(): LayerState
      reads this
    {
      LayerState(knownMonitors, slots, fenceTasks, activeTransition, events)
    }

    /** `RenderingLayer::init`, without the DRM and GPU set-up. */
    constructor (animations: set<string>)
      ensures Valid() && fresh(ownership) && fresh(fenceScheduler)
      ensures Layer() == LayerState(map[], map[], map[], None, [])
      ensures this.animations == animations
      ensures ownership.currentSession == None && ownership.slotOwnership == map[]
      ensures ownership.deferredReleases == [] && fenceScheduler.callbacks == map[]
    {
      knownMonitors := map[];
      ownership := new OwnershipManager();
      slots := map[];
      fenceScheduler := new FenceScheduler();
      fenceTasks := map[];
      this.animations := animations;
      activeTransition := None;
      events := [];
    }

    /** `cancel_fence_wait`: the key's wait, if it has one, is forgotten and its handle cancelled. */
    method CancelFenceWait(key: SlotKey)
      requires Valid()
      modifies this, fenceScheduler
      ensures Valid()
      ensures Layer() == old(Layer()).(fenceTasks := old(fenceTasks) - {key})
      ensures key in old(fenceTasks) ==>
        && fenceScheduler.callbacks == old(fenceScheduler.callbacks) - {old(fenceTasks)[key]}
        && fenceScheduler.tasks == old(fenceScheduler.tasks) - {old(fenceTasks)[key]}
      ensures key !in old(fenceTasks) ==>
        fenceScheduler.callbacks == old(fenceScheduler.callbacks) && fenceScheduler.tasks == old(fenceScheduler.tasks)
      ensures fenceScheduler.cells == old(fenceScheduler.cells) && fenceScheduler.nextId == old(fenceScheduler.nextId)
      ensures fenceScheduler.completed == old(fenceScheduler.completed)
    {
      if key in fenceTasks {
        var h := fenceTasks[key];
        fenceTasks := fenceTasks - {key};
        var _ := fenceScheduler.Cancel(h);
      }
    }

    /** Cancels the waits of every key in `keys`, as the clean-up loops do one key at a time. */
    method CancelFenceWaits(keys: set<SlotKey>)
      requires Valid()
      requires keys <= fenceTasks.Keys
      modifies this, fenceScheduler
      ensures Valid()
      ensures Layer() == old(Layer()).(fenceTasks := old(fenceTasks) - keys)
      ensures fenceScheduler.callbacks == old(fenceScheduler.callbacks) - HandlesOf(old(fenceTasks), keys)
      ensures fenceScheduler.tasks == old(fenceScheduler.tasks) - HandlesOf(old(fenceTasks), keys)
      ensures fenceScheduler.cells == old(fenceScheduler.cells) && fenceScheduler.nextId == old(fenceScheduler.nextId)
      ensures fenceScheduler.completed == old(fenceScheduler.completed)
    {
      var rest := keys;
      while rest != {}
        invariant rest <= keys && rest <= fenceTasks.Keys
        invariant Valid()
        invariant Layer() == old(Layer()).(fenceTasks := old(fenceTasks) - (keys - rest))
        invariant fenceScheduler.callbacks == old(fenceScheduler.callbacks) - HandlesOf(old(fenceTasks), keys - rest)
        invariant fenceScheduler.tasks == old(fenceScheduler.tasks) - HandlesOf(old(fenceTasks), keys - rest)
        invariant fenceScheduler.cells == old(fenceScheduler.cells) && fenceScheduler.nextId == old(fenceScheduler.nextId)
        invariant fenceScheduler.completed == old(fenceScheduler.completed)
        decreases rest
      {
        var k :| k in rest;
        assert fenceTasks[k] == old(fenceTasks)[k];
        CancelStep(old(fenceTasks), old(fenceScheduler.callbacks), old(fenceScheduler.tasks), keys, rest, k);
        CancelFenceWait(k);
        rest := rest - {k};
      }
    }

    /**
     * `spawn_acquire_fence_waiter`: a key that already has a wait keeps its handle when the
     * fence can be duplicated and the scheduler still knows the handle; otherwise the stale
     * entry is dropped and a new wait, whose callback reports `Signaled(key)`, is scheduled.
     */
    method SpawnAcquireFenceWaiter(key: SlotKey, fence: Fence, cloneOk: bool)
      requires Valid()
      modifies this, fenceScheduler
      ensures Valid()
      ensures Layer() == old(Layer()).(fenceTasks := fenceTasks)
      ensures key in fenceTasks && fenceTasks[key] in fenceScheduler.tasks
      ensures fenceScheduler.tasks[fenceTasks[key]] == WaitTask(fenceScheduler.callbacks[fenceTasks[key]], [fence], All, false)
      ensures key in old(fenceTasks) && cloneOk && old(fenceTasks)[key] in old(fenceScheduler.callbacks) ==>
        && fenceTasks == old(fenceTasks)
        && fenceScheduler.nextId == old(fenceScheduler.nextId)
        && fenceScheduler.cells == old(fenceScheduler.cells)
      ensures !(key in old(fenceTasks) && cloneOk && old(fenceTasks)[key] in old(fenceScheduler.callbacks)) ==>
        && fenceTasks == old(fenceTasks)[key := FenceTaskHandle(old(fenceScheduler.nextId))]
        && fenceScheduler.cells == old(fenceScheduler.cells) + [Some(Signaled(key))]
    {
      if key in fenceTasks {
        var existing := fenceTasks[key];
        if cloneOk {
          var ok := fenceScheduler.Reschedule(existing, [fence], All);
          if ok {
            return;
          }
        }
        fenceTasks := fenceTasks - {key};
      }
      var h := fenceScheduler.Schedule([fence], All, Signaled(key));
      fenceTasks := fenceTasks[key := h];
    }

    /**
     * `handle_fence_event`: the signaled key no longer has a wait, and the buffer the
     * surface state gave up (`previous`) is queued for release.
     */
    method HandleFenceEvent(ev: FenceEvent, previous: Option<BufferSlot>)
      requires Valid()
      modifies this, ownership
      ensures Valid()
      ensures Layer() == old(Layer()).(fenceTasks := old(fenceTasks) - {ev.key})
      ensures previous.None? ==> ownership.deferredReleases == old(ownership.deferredReleases)
      ensures previous.Some? ==>
        && DeferredRelease(ev.key.monitor, ev.key.session, previous.value) in ownership.deferredReleases
        && forall d :: d in ownership.deferredReleases <==>
             d in old(ownership.deferredReleases) || d == DeferredRelease(ev.key.monitor, ev.key.session, previous.value)
      ensures ownership.slotOwnership == old(ownership.slotOwnership) && ownership.monitorState == old(ownership.monitorState)
      ensures ownership.currentSession == old(ownership.currentSession)
    {
      fenceTasks := fenceTasks - {ev.key};
      if previous.Some? {
        ownership.QueueBufferRelease(ev.key.monitor, ev.key.session, previous.value);
      }
    }

    /**
     * `cleanup_monitor_slots`: every imported slot, owner, deferred release, surface state
     * and fence wait of monitor `m` is dropped, and every other one kept.
     */
    method CleanupMonitorSlots(m: MonitorId)
      requires Valid()
      modifies this, ownership, fenceScheduler
      ensures Valid()
      ensures forall k :: k in slots <==> k in old(slots) && k.monitor != m
      ensures forall k :: k in slots ==> slots[k] == old(slots)[k]
      ensures fenceTasks == old(fenceTasks) - (set k | k in old(fenceTasks) && k.monitor == m)
      ensures fenceScheduler.callbacks ==
        old(fenceScheduler.callbacks) - HandlesOf(old(fenceTasks), set k | k in old(fenceTasks) && k.monitor == m)
      ensures forall k :: k in ownership.slotOwnership <==> k in old(ownership.slotOwnership) && k.monitor != m
      ensures forall d :: d in ownership.deferredReleases <==> d in old(ownership.deferredReleases) && d.monitor != m
      ensures forall k :: k in ownership.monitorState <==> k in old(ownership.monitorState) && k.0 != m
      ensures ownership.currentSession == old(ownership.currentSession)
      ensures Layer() == old(Layer()).(slots := slots, fenceTasks := fenceTasks)
    {
      slots := map k | k in slots && k.monitor != m :: slots[k];
      ownership.CleanupMonitor(m);
      var remove := set k | k in fenceTasks && k.monitor == m;
      CancelFenceWaits(remove);
    }

    /**
     * `cleanup_session_slots`: every imported slot, owner, deferred release, surface state
     * and fence wait of session `s` is dropped, and every other one kept.
     */
    method CleanupSessionSlots(s: SessionId)
      requires Valid()
      modifies this, ownership, fenceScheduler
      ensures Valid()
      ensures forall k :: k in slots <==> k in old(slots) && k.session != s
      ensures forall k :: k in slots ==> slots[k] == old(slots)[k]
      ensures fenceTasks == old(fenceTasks) - (set k | k in old(fenceTasks) && k.session == s)
      ensures fenceScheduler.callbacks ==
        old(fenceScheduler.callbacks) - HandlesOf(old(fenceTasks), set k | k in old(fenceTasks) && k.session == s)
      ensures forall k :: k in ownership.slotOwnership <==> k in old(ownership.slotOwnership) && k.session != s
      ensures forall d :: d in ownership.deferredReleases <==> d in old(ownership.deferredReleases) && d.session != s
      ensures forall k :: k in ownership.monitorState <==> k in old(ownership.monitorState) && k.1 != s
      ensures ownership.currentSession == old(ownership.currentSession)
      ensures Layer() == old(Layer()).(slots := slots, fenceTasks := fenceTasks)
    {
      slots := map k | k in slots && k.session != s :: slots[k];
      ownership.CleanupSession(s);
      var remove := set k | k in fenceTasks && k.session == s;
      CancelFenceWaits(remove);
    }

    /**
     * The bookkeeping of `import_framebuffers`: for a monitor id that parses and names a
     * DRM monitor that could be made current, every imported buffer is stored under its
     * slot key and owned by the client; otherwise nothing changes.
     */
    method ImportFramebuffers(payload: FramebufferLinkPayload, dmaBufs: seq<Fence>, session: SessionId,
                              drmMonitors: seq<MonitorId>, madeCurrent: bool, imports: seq<Option<Texture>>)
      requires Valid()
      modifies this, ownership
      ensures Valid()
      ensures LinkedMonitor(payload, drmMonitors).None? || !madeCurrent ==>
        slots == old(slots) && ownership.slotOwnership == old(ownership.slotOwnership)
      ensures LinkedMonitor(payload, drmMonitors).Some? && madeCurrent ==>
        var linked := LinkedSlots(LinkedMonitor(payload, drmMonitors).value, session, ImportedSlots(|dmaBufs|, imports));
        && slots == old(slots) + linked
        && ownership.slotOwnership == old(ownership.slotOwnership) + ClientOwnedAll(linked.Keys)
      ensures Layer() == old(Layer()).(slots := slots)
      ensures ownership.deferredReleases == old(ownership.deferredReleases)
      ensures ownership.monitorState == old(ownership.monitorState) && ownership.currentSession == old(ownership.currentSession)
    {
      var parsed := ParseMonitorId(payload.monitorId);
      if parsed.Err? {
        return;
      }
      var m := parsed.value;
      if m !in drmMonitors || !madeCurrent {
        return;
      }
      var imported := CollectImports(dmaBufs, imports);
      StoreImports(m, session, imported);
    }

    /** The insertion loop of `import_framebuffers`: each imported buffer is stored and client-owned. */
    method StoreImports(m: MonitorId, session: SessionId, imported: seq<(BufferSlot, Texture)>)
      requires Valid()
      modifies this, ownership
      ensures Valid()
      ensures slots == old(slots) + LinkedSlots(m, session, PairsMap(imported))
      ensures ownership.slotOwnership == old(ownership.slotOwnership) + ClientOwnedAll(LinkedSlots(m, session, PairsMap(imported)).Keys)
      ensures Layer() == old(Layer()).(slots := slots)
      ensures ownership.deferredReleases == old(ownership.deferredReleases)
      ensures ownership.monitorState == old(ownership.monitorState) && ownership.currentSession == old(ownership.currentSession)
    {
      var j := 0;
      while j < |imported|
        invariant 0 <= j <= |imported|
        invariant ownership.Valid()
        invariant slots == old(slots) + LinkedSlots(m, session, PairsMap(imported[..j]))
        invariant ownership.slotOwnership ==
          old(ownership.slotOwnership) + ClientOwnedAll(LinkedSlots(m, session, PairsMap(imported[..j])).Keys)
        invariant Layer() == old(Layer()).(slots := slots)
        invariant ownership.deferredReleases == old(ownership.deferredReleases)
        invariant ownership.monitorState == old(ownership.monitorState) && ownership.currentSession == old(ownership.currentSession)
      {
        PairsMapStep(imported, j);
        LinkedStep(old(slots), old(ownership.slotOwnership), m, session, PairsMap(imported[..j]), imported[j].0, imported[j].1);
        StoreImport(SlotKey(m, session, imported[j].0), imported[j].1);
        j := j + 1;
      }
      assert imported[..j] == imported;
    }

    /** One step of the insertion loop: the texture is stored under `key`, which the client owns. */
    method StoreImport(key: SlotKey, t: Texture)
      requires Valid()
      modifies this, ownership
      ensures Valid()
      ensures slots == old(slots)[key := t]
      ensures ownership.slotOwnership == old(ownership.slotOwnership)[key := ClientOwned]
      ensures Layer() == old(Layer()).(slots := slots)
      ensures ownership.deferredReleases == old(ownership.deferredReleases)
      ensures ownership.monitorState == old(ownership.monitorState) && ownership.currentSession == old(ownership.currentSession)
    {
      slots := slots[key := t];
      ownership.MarkSlotClientOwned(key);
    }

    /**
     * `process_deferred_releases`: every queued release, in order, gives its slot back to
     * the client and is reported to the server as consumed, with the render fence when it
     * is a valid descriptor; the queue is left empty.
     */
    method ProcessDeferredReleases(releaseFence: int)
      requires Valid()
      modifies this, ownership
      ensures Valid()
      ensures ownership.deferredReleases == []
      ensures events == old(events) + ConsumedEvents(old(ownership.deferredReleases), ReleaseFence(releaseFence))
      ensures ownership.slotOwnership ==
        old(ownership.slotOwnership) + ClientOwnedAll(ReleasedKeys(old(ownership.deferredReleases)))
      ensures Layer() == old(Layer()).(events := events)
      ensures ownership.monitorState == old(ownership.monitorState) && ownership.currentSession == old(ownership.currentSession)
    {
      var items := ownership.TakeDeferredReleases();
      ConsumeAll(items, ReleaseFence(releaseFence));
    }

    /** The loop of `process_deferred_releases` over the drained queue. */
    method ConsumeAll(items: seq<DeferredRelease>, fence: Option<Fence>)
      requires ownership.deferredReleases == []
      modifies this, ownership
      ensures ownership.deferredReleases == []
      ensures events == old(events) + ConsumedEvents(items, fence)
      ensures ownership.slotOwnership == old(ownership.slotOwnership) + ClientOwnedAll(ReleasedKeys(items))
      ensures Layer() == old(Layer()).(events := events)
      ensures ownership.monitorState == old(ownership.monitorState) && ownership.currentSession == old(ownership.currentSession)
    {
      var i := 0;
      while i < |items|
        invariant 0 <= i <= |items|
        invariant ownership.deferredReleases == []
        invariant events == old(events) + ConsumedEvents(items[..i], fence)
        invariant ownership.slotOwnership == old(ownership.slotOwnership) + ClientOwnedAll(ReleasedKeys(items[..i]))
        invariant Layer() == old(Layer()).(events := events)
        invariant ownership.monitorState == old(ownership.monitorState) && ownership.currentSession == old(ownership.currentSession)
      {
        ConsumeNext(items, i, fence, old(events), old(ownership.slotOwnership));
        i := i + 1;
      }
      assert items[..i] == items;
    }

    /** The `i`-th pass of `ConsumeAll`: one more drained release is consumed. */
    method ConsumeNext(items: seq<DeferredRelease>, i: nat, fence: Option<Fence>,
                       ghost events0: seq<RenderEvt>, ghost owners0: map<SlotKey, SlotOwner>)
      requires i < |items|
      requires events == events0 + ConsumedEvents(items[..i], fence)
      requires ownership.slotOwnership == owners0 + ClientOwnedAll(ReleasedKeys(items[..i]))
      modifies this, ownership
      ensures events == events0 + ConsumedEvents(items[..i + 1], fence)
      ensures ownership.slotOwnership == owners0 + ClientOwnedAll(ReleasedKeys(items[..i + 1]))
      ensures Layer() == old(Layer()).(events := events)
      ensures ownership.deferredReleases == old(ownership.deferredReleases)
      ensures ownership.monitorState == old(ownership.monitorState) && ownership.currentSession == old(ownership.currentSession)
    {
      var item := items[i];
      ghost var keys := ReleasedKeys(items[..i]);
      ClientOwnedStep(owners0, keys, ReleasedKey(item));
      ReleasedStep(items, i, fence);
      ConsumedAfter(events0, items, i, fence);
      ConsumeDeferred(item, fence);
      assert ownership.slotOwnership == owners0 + ClientOwnedAll(keys + {ReleasedKey(item)});
    }

    /** One drained release: the slot goes back to its client, who is told the buffer was consumed. */
    method ConsumeDeferred(item: DeferredRelease, fence: Option<Fence>)
      modifies this, ownership
      ensures ownership.deferredReleases == old(ownership.deferredReleases)
      ensures ownership.slotOwnership == old(ownership.slotOwnership)[ReleasedKey(item) := ClientOwned]
      ensures events == old(events) + [BufferConsumed(item.session, item.monitor, IndexOfSlot(item.buffer), fence)]
      ensures Layer() == old(Layer()).(events := old(events) + [BufferConsumed(item.session, item.monitor, IndexOfSlot(item.buffer), fence)])
      ensures ownership.monitorState == old(ownership.monitorState) && ownership.currentSession == old(ownership.currentSession)
    {
      ownership.MarkSlotClientOwned(ReleasedKey(item));
      events := events + [BufferConsumed(item.session, item.monitor, IndexOfSlot(item.buffer), fence)];
    }

    /**
     * The `SetActiveSession` command: any running transition is dropped, a new one starts
     * only when both a session and a non-empty transition are given, and that session
     * becomes the one the renderer shows.  A command arriving mid-transition simply
     * replaces it.
     */
    method HandleSetActiveSession(session: Option<SessionId>, transition: Option<SessionTransition>, now: int)
      requires Valid()
      modifies this, ownership
      ensures Valid()
      ensures activeTransition.Some? <==> session.Some? && transition.Some? && transition.value.duration > 0
      ensures activeTransition.Some? ==>
        && activeTransition.value.toSession == session.value
        && activeTransition.value.fromSession == transition.value.fromSession
        && activeTransition.value.startedAt == now
        && activeTransition.value.animation == transition.value.animation
        && activeTransition.value.duration == transition.value.duration
      ensures activeTransition == if session.Some? && transition.Some? then FromCmd(session.value, transition.value, now) else None
      ensures ownership.currentSession == session
      ensures Layer() == old(Layer()).(activeTransition := activeTransition)
      ensures ownership.slotOwnership == old(ownership.slotOwnership) && ownership.monitorState == old(ownership.monitorState)
      ensures ownership.deferredReleases == old(ownership.deferredReleases)
    {
      activeTransition := None;
      if session.Some? && transition.Some? {
        activeTransition := FromCmd(session.value, transition.value, now);
      }
      ownership.SetCurrentSession(session);
    }

    /**
     * The `SessionRemoved` command: everything the renderer holds for the session goes, and
     * it stops being the current session if it was.
     */
    method HandleSessionRemoved(s: SessionId)
      requires Valid()
      modifies this, ownership, fenceScheduler
      ensures Valid()
      ensures ownership.currentSession == if old(ownership.currentSession) == Some(s) then None else old(ownership.currentSession)
      ensures forall k :: k in slots <==> k in old(slots) && k.session != s
      ensures forall k :: k in fenceTasks <==> k in old(fenceTasks) && k.session != s
      ensures forall k :: k in ownership.slotOwnership <==> k in old(ownership.slotOwnership) && k.session != s
      ensures forall d :: d in ownership.deferredReleases <==> d in old(ownership.deferredReleases) && d.session != s
      ensures forall k :: k in ownership.monitorState <==> k in old(ownership.monitorState) && k.1 != s
      ensures Layer() == old(Layer()).(slots := slots, fenceTasks := fenceTasks)
    {
      CleanupSessionSlots(s);
      if ownership.currentSession == Some(s) {
        ownership.SetCurrentSession(None);
      }
    }

    /** Why a swap is refused: an unknown monitor first, then a buffer never linked. */
    function SwapRejection(m: MonitorId, key: SlotKey): (reason: Option<string>)
      reads this
      ensures reason.None? <==> m in knownMonitors && key in slots
      ensures m !in knownMonitors ==> reason == Some("unknown_monitor")
      ensures m in knownMonitors && key !in slots ==> reason == Some("unlinked_buffer")
    {
      if m !in knownMonitors then Some("unknown_monitor")
      else if key !in slots then Some("unlinked_buffer")
      else None
    }

    /**
     * The `SwapBuffers` command.  A swap on an unknown monitor or an unlinked buffer is
     * rejected and changes nothing else.  An accepted swap queues the displaced pending
     * buffer and the previous buffer for release, arms a wait on the acquire fence (or drops
     * the buffer's wait when there is none) and is acknowledged exactly once.
     */
    method HandleSwapBuffers(m: MonitorId, b: BufferIndex, s: SessionId, acquireFence: Option<Fence>,
                             report: SwapTransition, cloneOk: bool)
      requires Valid()
      modifies this, ownership, fenceScheduler
      ensures Valid()
      ensures var key := SlotKey(m, s, SlotOfIndex(b));
        old(SwapRejection(m, key)).Some? ==>
          && Layer() == old(Layer()).(events := old(events) + [BufferRequestRejected(s, m, b, old(SwapRejection(m, key)).value)])
          && ownership.deferredReleases == old(ownership.deferredReleases)
          && fenceScheduler.callbacks == old(fenceScheduler.callbacks)
      ensures var key := SlotKey(m, s, SlotOfIndex(b));
        old(SwapRejection(m, key)).None? ==>
          && events == old(events) + [BufferRequestAck(s, m, b)]
          && (acquireFence.Some? <==> key in fenceTasks)
          && (report.canceledPending.Some? && !(report.canceledPending.value == key.buffer && acquireFence.Some?) ==>
                SlotKey(m, s, report.canceledPending.value) !in fenceTasks)
          && (forall d :: d in ownership.deferredReleases <==>
                || d in old(ownership.deferredReleases)
                || (report.canceledPending.Some? && d == DeferredRelease(m, s, report.canceledPending.value))
                || (report.previousToRelease.Some? && d == DeferredRelease(m, s, report.previousToRelease.value)))
          && Layer() == old(Layer()).(fenceTasks := fenceTasks, events := events)
          && fenceTasks - SwapTouched(key, report) == old(fenceTasks) - SwapTouched(key, report)
      ensures ownership.slotOwnership == old(ownership.slotOwnership) && ownership.monitorState == old(ownership.monitorState)
      ensures ownership.currentSession == old(ownership.currentSession)
    {
      var key := SlotKey(m, s, SlotOfIndex(b));
      var rejection := SwapRejection(m, key);
      if rejection.Some? {
        events := events + [BufferRequestRejected(s, m, b, rejection.value)];
        return;
      }
      AcceptSwap(m, b, s, acquireFence, report, cloneOk);
    }

    /** The keys whose fence wait an accepted swap may change: its own and the displaced pending one. */
    function SwapTouched(key: SlotKey, report: SwapTransition): (t: set<SlotKey>)
      ensures key in t
      ensures forall k :: k in t <==>
        k == key || (report.canceledPending.Some? && k == SlotKey(key.monitor, key.session, report.canceledPending.value))
    {
      {key} + (if report.canceledPending.Some? then {SlotKey(key.monitor, key.session, report.canceledPending.value)} else {})
    }

    /** An accepted `SwapBuffers`: releases are queued, the fence wait armed and the swap acknowledged. */
    method AcceptSwap(m: MonitorId, b: BufferIndex, s: SessionId, acquireFence: Option<Fence>,
                      report: SwapTransition, cloneOk: bool)
      requires Valid()
      modifies this, ownership, fenceScheduler
      ensures Valid()
      ensures var key := SlotKey(m, s, SlotOfIndex(b));
        && events == old(events) + [BufferRequestAck(s, m, b)]
        && (acquireFence.Some? <==> key in fenceTasks)
        && (report.canceledPending.Some? && !(report.canceledPending.value == key.buffer && acquireFence.Some?) ==>
              SlotKey(m, s, report.canceledPending.value) !in fenceTasks)
        && (forall d :: d in ownership.deferredReleases <==>
              || d in old(ownership.deferredReleases)
              || (report.canceledPending.Some? && d == DeferredRelease(m, s, report.canceledPending.value))
              || (report.previousToRelease.Some? && d == DeferredRelease(m, s, report.previousToRelease.value)))
        && Layer() == old(Layer()).(fenceTasks := fenceTasks, events := events)
        && fenceTasks - SwapTouched(key, report) == old(fenceTasks) - SwapTouched(key, report)
      ensures ownership.slotOwnership == old(ownership.slotOwnership) && ownership.monitorState == old(ownership.monitorState)
      ensures ownership.currentSession == old(ownership.currentSession)
    {
      var key := SlotKey(m, s, SlotOfIndex(b));
      var touched := SwapTouched(key, report);
      if report.canceledPending.Some? {
        CancelFenceWait(SlotKey(m, s, report.canceledPending.value));
        ownership.QueueBufferRelease(m, s, report.canceledPending.value);
      }
      assert fenceTasks - touched == old(fenceTasks) - touched;
      ghost var beforeArm := fenceTasks;
      ArmAcquireWait(key, acquireFence, cloneOk);
      SameOutsideWider(fenceTasks, beforeArm, {key}, touched);
      if report.canceledPending.Some? && report.canceledPending.value != key.buffer {
        var displaced := SlotKey(m, s, report.canceledPending.value);
        assert displaced !in beforeArm - {key};
      }
      if report.previousToRelease.Some? {
        ownership.QueueBufferRelease(m, s, report.previousToRelease.value);
      }
      events := events + [BufferRequestAck(s, m, b)];
    }

    /** The swapped buffer waits on its acquire fence, or has no wait without one; no other key changes. */
    method ArmAcquireWait(key: SlotKey, acquireFence: Option<Fence>, cloneOk: bool)
      requires Valid()
      modifies this, fenceScheduler
      ensures Valid()
      ensures acquireFence.Some? <==> key in fenceTasks
      ensures fenceTasks - {key} == old(fenceTasks) - {key}
      ensures Layer() == old(Layer()).(fenceTasks := fenceTasks)
    {
      if acquireFence.Some? {
        SpawnAcquireFenceWaiter(key, acquireFence.value, cloneOk);
      } else {
        CancelFenceWait(key);
      }
    }

    /**
     * `handle_command`: the renderer keeps running after every command but `Shutdown`.
     * The parameters after `cmd` stand for what the DRM device, the GPU import and the
     * swap bookkeeping report while the command is handled.
     */
    method HandleCommand(cmd: RenderCmd, now: int, drmMonitors: seq<MonitorId>, madeCurrent: bool,
                         imports: seq<Option<Texture>>, report: SwapTransition, cloneOk: bool)
      returns (keepRunning: bool)
      requires Valid()
      modifies this, ownership, fenceScheduler
      ensures Valid()
      ensures keepRunning <==> !cmd.ShutdownCmd?
      ensures cmd.ShutdownCmd? ==> Layer() == old(Layer()) && ownership.currentSession == old(ownership.currentSession)
      ensures cmd.SetActiveSession? ==> ownership.currentSession == cmd.session
      ensures cmd.SetActiveSession? ==>
        (activeTransition.Some? <==> cmd.session.Some? && cmd.transition.Some? && cmd.transition.value.duration > 0)
      ensures cmd.SessionRemoved? ==>
        && ownership.currentSession == (if old(ownership.currentSession) == Some(cmd.removed) then None else old(ownership.currentSession))
        && forall k :: k in slots ==> k.session != cmd.removed
      ensures cmd.SwapBuffers? ==>
        |events| == |old(events)| + 1 &&
        (events[|events| - 1].BufferRequestAck? <==>
          old(SwapRejection(cmd.swapMonitor, SlotKey(cmd.swapMonitor, cmd.swapSession, SlotOfIndex(cmd.swapBuffer)))).None?)
      ensures !cmd.SwapBuffers? ==> events == old(events)
    {
      keepRunning := true;
      match cmd
      case ShutdownCmd =>
        keepRunning := false;
      case FramebufferLinkCmd(payload, dmaBufs, linkSession) =>
        ImportFramebuffers(payload, dmaBufs, linkSession, drmMonitors, madeCurrent, imports);
      case SetActiveSession(session, transition) =>
        HandleSetActiveSession(session, transition, now);
      case SessionRemoved(removed) =>
        HandleSessionRemoved(removed);
      case SwapBuffers(swapMonitor, swapBuffer, swapSession, acquireFence) =>
        HandleSwapBuffers(swapMonitor, swapBuffer, swapSession, acquireFence, report, cloneOk);
    }

    /** The first loop of `sync_monitors`: new monitors are announced and the current list collected. */
    method AnnounceMonitors(current: seq<Monitor>) returns (currentMap: map<MonitorId, Monitor>)
      modifies this
      ensures currentMap == MonitorMap(current)
      ensures Layer() == old(Layer()).(events := old(events) + OnlineEvents(current, old(knownMonitors).Keys))
    {
      currentMap := map[];
      var i := 0;
      while i < |current|
        invariant 0 <= i <= |current|
        invariant currentMap == MonitorMap(current[..i])
        invariant events == old(events) + OnlineEvents(current[..i], old(knownMonitors).Keys)
        invariant knownMonitors == old(knownMonitors) && slots == old(slots) && fenceTasks == old(fenceTasks)
        invariant activeTransition == old(activeTransition)
      {
        OnlineAfter(old(events), current, i, old(knownMonitors).Keys);
        MonitorMapStep(current, i);
        AnnounceOne(current[i]);
        currentMap := currentMap[current[i].id := current[i]];
        i := i + 1;
      }
      assert current[..i] == current;
    }

    /** A reported monitor is announced exactly when it is not known yet; nothing else changes. */
    method AnnounceOne(mon: Monitor)
      modifies this
      ensures events == old(events) + (if mon.id !in knownMonitors then [MonitorOnline(mon)] else [])
      ensures Layer() == old(Layer()).(events := events)
    {
      if mon.id !in knownMonitors {
        events := events + [MonitorOnline(mon)];
      }
    }

    /** The second loop of `sync_monitors`: each vanished monitor is announced and cleaned up. */
    method RetireMonitors(gone: set<MonitorId>) returns (ghost removed: seq<MonitorId>)
      requires Valid()
      modifies this, ownership, fenceScheduler
      ensures Valid()
      ensures NoDuplicates(removed) && forall id :: id in removed <==> id in gone
      ensures events == old(events) + OfflineEvents(removed)
      ensures forall k :: k in slots <==> k in old(slots) && k.monitor !in gone
      ensures forall k :: k in fenceTasks <==> k in old(fenceTasks) && k.monitor !in gone
      ensures forall k :: k in ownership.slotOwnership <==> k in old(ownership.slotOwnership) && k.monitor !in gone
      ensures forall d :: d in ownership.deferredReleases <==> d in old(ownership.deferredReleases) && d.monitor !in gone
      ensures knownMonitors == old(knownMonitors) && activeTransition == old(activeTransition)
      ensures ownership.currentSession == old(ownership.currentSession)
    {
      var rest := gone;
      removed := [];
      while rest != {}
        invariant Valid()
        invariant rest <= gone
        invariant NoDuplicates(removed)
        invariant forall id :: id in removed <==> id in gone && id !in rest
        invariant events == old(events) + OfflineEvents(removed)
        invariant forall k :: k in slots <==> k in old(slots) && k.monitor !in removed
        invariant forall k :: k in fenceTasks <==> k in old(fenceTasks) && k.monitor !in removed
        invariant forall k :: k in ownership.slotOwnership <==> k in old(ownership.slotOwnership) && k.monitor !in removed
        invariant forall d :: d in ownership.deferredReleases <==> d in old(ownership.deferredReleases) && d.monitor !in removed
        invariant knownMonitors == old(knownMonitors) && activeTransition == old(activeTransition)
        invariant ownership.currentSession == old(ownership.currentSession)
        decreases rest
      {
        var id :| id in rest;
        events := events + [MonitorOffline(id)];
        CleanupMonitorSlots(id);
        AppendKeepsNoDuplicates(removed, id);
        assert OfflineEvents(removed + [id]) == OfflineEvents(removed) + [MonitorOffline(id)];
        removed := removed + [id];
        rest := rest - {id};
      }
    }

    /**
     * `sync_monitors`: a monitor the DRM device lists but the renderer did not know is
     * announced online; a known monitor it no longer lists is announced offline and all
     * its slots, owners, surface states and fence waits are dropped; the known monitors
     * become the listed ones.
     */
    method SyncMonitors(current: seq<Monitor>) returns (ghost removed: seq<MonitorId>)
      requires Valid()
      modifies this, ownership, fenceScheduler
      ensures Valid()
      ensures knownMonitors == MonitorMap(current)
      ensures NoDuplicates(removed)
      ensures forall id :: id in removed <==> id in old(knownMonitors) && id !in knownMonitors
      ensures events == old(events) + OnlineEvents(current, old(knownMonitors).Keys) + OfflineEvents(removed)
      ensures forall k :: k in slots <==> k in old(slots) && k.monitor !in removed
      ensures forall k :: k in fenceTasks <==> k in old(fenceTasks) && k.monitor !in removed
      ensures forall k :: k in ownership.slotOwnership <==> k in old(ownership.slotOwnership) && k.monitor !in removed
      ensures activeTransition == old(activeTransition) && ownership.currentSession == old(ownership.currentSession)
    {
      var currentMap := AnnounceMonitors(current);
      var gone := knownMonitors.Keys - currentMap.Keys;
      removed := RetireMonitors(gone);
      knownMonitors := currentMap;
    }

    /** A slot the renderer may draw: imported, and handed to shift by its client. */
    function Drawable(key: Option<SlotKey>): (r: Option<SlotKey>)
      reads this`slots, ownership
      ensures r.Some? <==> key.Some? && key.value in slots && ownership.Owner(key.value) == Some(ShiftOwned)
      ensures r.Some? ==> r == key
    {
      if key.Some? && key.value in slots && ownership.Owner(key.value) == Some(ShiftOwned) then key else None
    }

    /**
     * The image choice of `draw_ready_monitors` for monitor `m`.  During a transition whose
     * animation is registered: both sessions' slots drawable gives the animation, only
     * the target's gives the target fullscreen.  Otherwise the current session's slot is
     * drawn fullscreen when drawable, and nothing is drawn when it is not.
     */
    function ChooseDrawing(m: MonitorId, snapshot: Option<ActiveTransition>, now: int): (d: Drawing)
      reads this`slots, ownership
      ensures ShowsShiftOwned(d, slots, ownership.slotOwnership)
      ensures d.Animated? ==>
        && snapshot.Some? && snapshot.value.animation in animations
        && d.fromKey.monitor == m && d.fromKey.session == snapshot.value.fromSession
        && d.toKey.monitor == m && d.toKey.session == snapshot.value.toSession
        && d.progress == Progress(snapshot.value, now)
      ensures d.Fullscreen? ==> d.key.monitor == m
      ensures d.Fullscreen? && (snapshot.None? || snapshot.value.animation !in animations) ==>
        Some(d.key) == ownership.CurrentSlotKey(m)
      ensures d.Blank? ==> Drawable(ownership.CurrentSlotKey(m)).None?
      ensures snapshot.Some? && snapshot.value.animation in animations ==>
        var fromImage := Drawable(ownership.CurrentSlotKeyForSession(m, snapshot.value.fromSession));
        var toImage := Drawable(ownership.CurrentSlotKeyForSession(m, snapshot.value.toSession));
        && (fromImage.Some? && toImage.Some? ==> d == Animated(fromImage.value, toImage.value, Progress(snapshot.value, now)))
        && (fromImage.None? && toImage.Some? ==> d == Fullscreen(toImage.value))
      ensures !(snapshot.Some? && snapshot.value.animation in animations
                && Drawable(ownership.CurrentSlotKeyForSession(m, snapshot.value.toSession)).Some?) ==>
        d == (if Drawable(ownership.CurrentSlotKey(m)).Some? then Fullscreen(Drawable(ownership.CurrentSlotKey(m)).value) else Blank)
    {
      var viaTransition :=
        if snapshot.Some? && snapshot.value.animation in animations then
          var fromImage := Drawable(ownership.CurrentSlotKeyForSession(m, snapshot.value.fromSession));
          var toImage := Drawable(ownership.CurrentSlotKeyForSession(m, snapshot.value.toSession));
          if fromImage.Some? && toImage.Some? then Animated(fromImage.value, toImage.value, Progress(snapshot.value, now))
          else if toImage.Some? then Fullscreen(toImage.value)
          else Blank
        else Blank;
      if !viaTransition.Blank? then viaTransition
      else
        var current := Drawable(ownership.CurrentSlotKey(m));
        if current.Some? then Fullscreen(current.value) else Blank
    }

    /**
     * The bookkeeping of `draw_ready_monitors`: the current session gets a surface state
     * on every monitor, each monitor that can be drawn gets the drawing `ChooseDrawing`
     * picks under the transition as it was when the frame began, and a transition whose
     * duration had fully elapsed by then is cleared afterwards.
     */
    method DrawReadyMonitors(drmMonitors: seq<MonitorId>, drawable: set<MonitorId>, now: int)
      returns (frame: seq<MonitorFrame>)
      requires Valid()
      modifies this, ownership
      ensures Valid()
      ensures ownership.currentSession.Some? ==>
        forall m :: m in drmMonitors ==> (m, ownership.currentSession.value) in ownership.monitorState
      ensures forall f :: f in frame ==>
        && f.monitor in drmMonitors && f.monitor in drawable
        && f.drawing == ChooseDrawing(f.monitor, old(activeTransition), now)
        && ShowsShiftOwned(f.drawing, old(slots), old(ownership.slotOwnership))
      ensures forall m :: m in drmMonitors && m in drawable ==> m in FrameMonitors(frame)
      ensures activeTransition.None? <==>
        old(activeTransition).None? || Elapsed(old(activeTransition).value, now) >= old(activeTransition).value.duration
      ensures activeTransition.Some? ==> activeTransition == old(activeTransition)
      ensures Layer() == old(Layer()).(activeTransition := activeTransition)
      ensures ownership.slotOwnership == old(ownership.slotOwnership) && ownership.currentSession == old(ownership.currentSession)
      ensures ownership.deferredReleases == old(ownership.deferredReleases)
    {
      ownership.EnsureCurrentSessionMonitors(drmMonitors);
      var snapshot := activeTransition;
      var transitionDone := snapshot.Some? && Progress(snapshot.value, now) >= 1.0;
      if snapshot.Some? {
        ProgressCompleteIff(snapshot.value, now);
      }
      frame := [];
      var i := 0;
      while i < |drmMonitors|
        invariant 0 <= i <= |drmMonitors|
        invariant forall f :: f in frame ==>
          f.monitor in drmMonitors[..i] && f.monitor in drawable && f.drawing == ChooseDrawing(f.monitor, snapshot, now)
        invariant forall m :: m in drmMonitors[..i] && m in drawable ==> m in FrameMonitors(frame)
      {
        assert drmMonitors[..i + 1] == drmMonitors[..i] + [drmMonitors[i]];
        if drmMonitors[i] in drawable {
          frame := frame + [MonitorFrame(drmMonitors[i], ChooseDrawing(drmMonitors[i], snapshot, now))];
        }
        i := i + 1;
      }
      assert drmMonitors[..i] == drmMonitors;
      if transitionDone {
        activeTransition := None;
      }
    }

    /**
     * The bookkeeping of `render_and_commit`: the monitors are drawn, then (after the DRM
     * commit, whose flipped monitors, committed connector count and render fence are
     * parameters) the deferred releases are processed and one `PageFlip` is reported.  The
     * answer is whether any connector committed.
     */
    method RenderAndCommit(drmMonitors: seq<MonitorId>, drawable: set<MonitorId>, now: int,
                           flipped: seq<MonitorId>, committedConnectors: nat, renderFence: int)
      returns (committedAny: bool, frame: seq<MonitorFrame>)
      requires Valid()
      modifies this, ownership
      ensures Valid()
      ensures committedAny <==> committedConnectors > 0
      ensures forall f :: f in frame ==> ShowsShiftOwned(f.drawing, old(slots), old(ownership.slotOwnership))
      ensures forall m :: m in drmMonitors && m in drawable ==> m in FrameMonitors(frame)
      ensures ownership.deferredReleases == []
      ensures events == old(events) + ConsumedEvents(old(ownership.deferredReleases), ReleaseFence(renderFence)) + [PageFlip(flipped)]
      ensures ownership.slotOwnership ==
        old(ownership.slotOwnership) + ClientOwnedAll(ReleasedKeys(old(ownership.deferredReleases)))
      ensures slots == old(slots) && fenceTasks == old(fenceTasks) && knownMonitors == old(knownMonitors)
    {
      frame := DrawReadyMonitors(drmMonitors, drawable, now);
      committedAny := committedConnectors > 0;
      ProcessDeferredReleases(renderFence);
      events := events + [PageFlip(flipped)];
    }
  }
}
