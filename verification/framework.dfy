/**
 * The application framework's runtime (app-framework/core/src/lib.rs): its configuration,
 * the `TabAppFramework` bookkeeping of monitors and their layout, the set of monitors with a
 * frame scheduled, the per-buffer `pending_present` flags and release fences, and the
 * tracking of touch contacts and the primary contact.
 *
 * The connection to the server, the swapchains and the application are outside the model:
 * what the swapchain and the server answer is passed in, and what the framework does to them
 * (swapchain calls, application callbacks) is appended to two logs.  Positions computed
 * with floating point (cursor clamping, touch scaling) are passed in already computed.
 */
module Framework {
  import opened Wrappers
  import opened Layout
  import Comms
  import Seqs

  type BufferIndex = Comms.BufferIndex

  datatype RenderMode = Eager | Scheduled

  /** The server socket: the protocol's default path, or one the application sets. */
  datatype SocketPath = DefaultSocketPath | CustomSocketPath(path: string)

  datatype Config = Config(
    token: string,
    socketPath: SocketPath,
    renderNodePath: Option<string>,
    renderMode: RenderMode,
    openglVersion: (nat, nat))

  datatype FrameworkError =
    | ConfigError(message: string)
    | ClientError(message: string)
    | PollError(errno: int)
    | MonitorNotFound(id: string)

  const MISSING_TOKEN := "missing SHIFT_SESSION_TOKEN"
  const INVALID_LAYOUT := "invalid monitor layout: monitors must edge-touch, must not overlap, and cannot form islands"

  /** `Config::from_token`: every setting but the token takes its default. */
  function ConfigFromToken(token: string): (c: Config)
    ensures c.token == token
    ensures c.socketPath == DefaultSocketPath && c.renderNodePath == None
    ensures c.renderMode == Scheduled && c.openglVersion == (3, 3)
  {
    Config(token, DefaultSocketPath, None, Scheduled, (3, 3))
  }

  /** `Config::from_env`, given the value of `SHIFT_SESSION_TOKEN` if it is set. */
  function ConfigFromEnv(sessionToken: Option<string>): (r: Result<Config, FrameworkError>)
    ensures r.Ok? <==> sessionToken.Some?
    ensures r.Ok? ==> r.value.token == sessionToken.value && r.value == ConfigFromToken(sessionToken.value)
    ensures r.Err? ==> r.error == ConfigError(MISSING_TOKEN)
  {
    match sessionToken
    case None => Err(ConfigError(MISSING_TOKEN))
    case Some(t) => Ok(ConfigFromToken(t))
  }

  /** A point in global layout space. */
  datatype Point = Point(x: real, y: real)

  /** What the client library reports about a monitor. */
  datatype MonitorInfo = MonitorInfo(id: string, name: string, width: I32, height: I32, refreshRate: I32)

  /** The monitor as applications see it; the scale factor is always 1 and is not modelled. */
  datatype Monitor = Monitor(id: string, name: string, width: I32, height: I32, refreshRate: I32, x: I32, y: I32)

  /** `Monitor::from_tab_monitor`: placed at the origin until the layout is computed. */
  function FromTabMonitor(info: MonitorInfo): (m: Monitor)
    ensures m.id == info.id && m.width == info.width && m.height == info.height
    ensures m.x == 0 && m.y == 0
  {
    Monitor(info.id, info.name, info.width, info.height, info.refreshRate, 0, 0)
  }

  /** A two-element array indexed by buffer. */
  datatype PerBuffer<T> = PerBuffer(zero: T, one: T)
  {
    function Get(b: BufferIndex): T
    {
      match b
      case Zero => zero
      case One => one
    }

    function Set(b: BufferIndex, v: T): (r: PerBuffer<T>)
      ensures r.Get(b) == v
      ensures forall c :: c != b ==> r.Get(c) == Get(c)
    {
      match b
      case Zero => PerBuffer(v, one)
      case One => PerBuffer(zero, v)
    }
  }

  /** `MonitorRuntime`: a monitor with its release fences and `pending_present` flags. */
  datatype MonitorRuntime = MonitorRuntime(
    monitor: Monitor,
    releaseFences: PerBuffer<Option<int>>,
    pendingPresent: PerBuffer<bool>)

  /** `MonitorRuntime::new`: no fence pending and no present owed. */
  function NewRuntime(m: Monitor): (rt: MonitorRuntime)
    ensures rt.monitor == m
    ensures forall b :: rt.releaseFences.Get(b) == None && !rt.pendingPresent.Get(b)
  {
    MonitorRuntime(m, PerBuffer(None, None), PerBuffer(false, false))
  }

  function MoveTo(rt: MonitorRuntime, x: I32, y: I32): MonitorRuntime
  {
    rt.(monitor := rt.monitor.(x := x, y := y))
  }

  /** Moving a monitor back to where it was restores the monitor table. */
  lemma MoveBack(m: map<string, MonitorRuntime>, id: string, x: I32, y: I32)
    requires id in m
    ensures var moved := m[id := MoveTo(m[id], x, y)];
      moved[id := MoveTo(moved[id], m[id].monitor.x, m[id].monitor.y)] == m
  {
    var moved := m[id := MoveTo(m[id], x, y)];
    assert MoveTo(moved[id], m[id].monitor.x, m[id].monitor.y) == m[id];
  }

  /** The monitor as `current_layout` lists it. */
  function PlacementOf(rt: MonitorRuntime): MonitorPlacement
  {
    MonitorPlacement(rt.monitor.id, rt.monitor.x, rt.monitor.y, rt.monitor.width, rt.monitor.height)
  }

  /** The monitor as `recompute_layout` hands it to the packer. */
  function SpecOfRuntime(rt: MonitorRuntime): MonitorSpec
  {
    MonitorSpec(rt.monitor.id, rt.monitor.width, rt.monitor.height)
  }

  /** `placements` lists every monitor of `m` once, each as `current_layout` shows it. */
  ghost predicate ListsMonitors(ps: seq<MonitorPlacement>, m: map<string, MonitorRuntime>)
  {
    (forall i :: 0 <= i < |ps| ==> ps[i].id in m && ps[i] == PlacementOf(m[ps[i].id]))
    && (forall id :: id in m ==> exists i :: 0 <= i < |ps| && ps[i].id == id)
    && (forall i, j :: 0 <= i < j < |ps| ==> ps[i].id != ps[j].id)
  }

  /** The layout `recompute_layout` leaves: the horizontal packing of the monitors, sorted by id. */
  ghost predicate PackedBy(m: map<string, MonitorRuntime>, ps: seq<MonitorPlacement>)
  {
    SortedById(SpecsOf(ps)) && PackedLeftToRight(ps) && ListsMonitors(ps, m)
  }

  ghost predicate HorizontallyLaidOut(m: map<string, MonitorRuntime>)
  {
    exists ps :: PackedBy(m, ps)
  }

  /** Same monitor, same fences and flags; only the position may differ. */
  predicate SameButPosition(a: MonitorRuntime, b: MonitorRuntime)
  {
    a == MoveTo(b, a.monitor.x, a.monitor.y)
  }

  /** Callbacks the framework makes into the application. */
  datatype AppEvent =
    | MonitorAddedEvt(added: Monitor)
    | MonitorRemovedEvt(removedId: string, removedName: string)
    | PresentEvt(presentMonitor: string, presentBuffer: BufferIndex)
    | RenderEvt(renderMonitor: string, renderBuffer: BufferIndex)
    | ErrorEvt(error: FrameworkError)
    | TouchDownEvt(downContact: int)
    | TouchMotionEvt(motionContact: int)
    | TouchUpEvt(upContact: int)
    | TouchCancelEvt
    | PointerMoveEvt(oldPosition: Point, newPosition: Point)
    | PointerDownEvt(downPosition: Point)
    | PointerUpEvt(upPosition: Point)

  /** Calls the framework makes on a monitor's swapchain. */
  datatype SwapchainOp =
    | CreateSwapchain(createdFor: string)
    | Acquired(acquiredFor: string, acquiredBuffer: BufferIndex)
    | MarkBusy(busyFor: string, busyBuffer: BufferIndex)
    | MarkReleased(releasedFor: string, releasedBuffer: BufferIndex)
    | Rollback(rolledBackFor: string)

  /** What polling a release fence reports now (`fd_readable_now`). */
  datatype FenceProbe = Readable(ready: bool) | ProbeFailed(errno: int)

  /** A fence counts as signaled when it is readable, and also when polling it fails. */
  function Signaled(p: FenceProbe): (s: bool)
    ensures p.ProbeFailed? ==> s
  {
    match p
    case Readable(ready) => ready
    case ProbeFailed(_) => true
  }

  /** What the server answers to a buffer request. */
  datatype RequestOutcome = RequestOk | RequestErr(message: string)

  predicate OccursAt(s: string, part: string, i: int)
  {
    0 <= i && i + |part| <= |s| && s[i..i + |part|] == part
  }

  /** `str::contains`. */
  predicate Contains(s: string, part: string)
  {
    exists i | 0 <= i <= |s| :: OccursAt(s, part, i)
  }

  /** Errors after which Eager mode waits for a release instead of asking again. */
  predicate OwnershipRelated(message: string)
  {
    Contains(message, "ownership_violation")
    || Contains(message, "buffer_request_inflight")
    || Contains(message, "session_sleeping")
    || Contains(message, "not client-owned")
  }

  /** Any message that mentions a refused ownership is ownership-related; the empty one is not. */
  lemma OwnershipRelatedExamples(prefix: string, suffix: string)
    ensures OwnershipRelated(prefix + "buffer_request_inflight" + suffix)
    ensures !OwnershipRelated("")
  {
    var part := "buffer_request_inflight";
    var s := prefix + part + suffix;
    assert s[|prefix|..|prefix| + |part|] == part;
    assert OccursAt(s, part, |prefix|);
  }

  // ---------------------------------------------------------------------------
  // Flushing release fences, per monitor

  /** Buffer `b`'s release fence is pending and polling it says it signaled. */
  predicate FenceSignals(rt: MonitorRuntime, b: BufferIndex, probe: int -> FenceProbe)
  {
    rt.releaseFences.Get(b).Some? && Signaled(probe(rt.releaseFences.Get(b).value))
  }

  /** Flushing owes the application a present for buffer `b`. */
  predicate FlushPresents(rt: MonitorRuntime, b: BufferIndex, probe: int -> FenceProbe)
  {
    FenceSignals(rt, b, probe) && rt.pendingPresent.Get(b)
  }

  /** One buffer of `flush_pending_releases`: a signaled fence is dropped and its present settled. */
  function FlushBuffer(rt: MonitorRuntime, b: BufferIndex, probe: int -> FenceProbe): (r: MonitorRuntime)
    ensures r.monitor == rt.monitor
    ensures FenceSignals(rt, b, probe) ==> r.releaseFences.Get(b) == None && !r.pendingPresent.Get(b)
    ensures !FenceSignals(rt, b, probe) ==> r == rt
    ensures forall c :: c != b ==> r.releaseFences.Get(c) == rt.releaseFences.Get(c)
    ensures forall c :: c != b ==> r.pendingPresent.Get(c) == rt.pendingPresent.Get(c)
  {
    if FenceSignals(rt, b, probe) then
      rt.(releaseFences := rt.releaseFences.Set(b, None), pendingPresent := rt.pendingPresent.Set(b, false))
    else rt
  }

  /** Both buffers of a monitor, in index order. */
  function FlushMonitor(rt: MonitorRuntime, probe: int -> FenceProbe): MonitorRuntime
  {
    FlushBuffer(FlushBuffer(rt, Comms.BufferIndex.Zero, probe), Comms.BufferIndex.One, probe)
  }

  /**
   * After a flush, no signaled fence is left pending and no present is owed for it; fences
   * that have not signaled, and their flags, stay as they were.
   */
  lemma FlushSettlesSignaledFences(rt: MonitorRuntime, probe: int -> FenceProbe, b: BufferIndex)
    ensures FlushMonitor(rt, probe).monitor == rt.monitor
    ensures FenceSignals(rt, b, probe) ==>
      FlushMonitor(rt, probe).releaseFences.Get(b) == None && !FlushMonitor(rt, probe).pendingPresent.Get(b)
    ensures !FenceSignals(rt, b, probe) ==>
      FlushMonitor(rt, probe).releaseFences.Get(b) == rt.releaseFences.Get(b)
      && FlushMonitor(rt, probe).pendingPresent.Get(b) == rt.pendingPresent.Get(b)
  {
    var z := FlushBuffer(rt, Comms.BufferIndex.Zero, probe);
    if b == Comms.BufferIndex.One {
      assert FenceSignals(z, b, probe) == FenceSignals(rt, b, probe);
    }
  }

  /** Flushing twice with the same poll results settles nothing more: the flush is idempotent. */
  lemma FlushIdempotent(rt: MonitorRuntime, probe: int -> FenceProbe)
    ensures FlushMonitor(FlushMonitor(rt, probe), probe) == FlushMonitor(rt, probe)
  {
    var f := FlushMonitor(rt, probe);
    FlushSettlesSignaledFences(rt, probe, Comms.BufferIndex.Zero);
    FlushSettlesSignaledFences(rt, probe, Comms.BufferIndex.One);
    FlushSettlesSignaledFences(f, probe, Comms.BufferIndex.Zero);
    FlushSettlesSignaledFences(f, probe, Comms.BufferIndex.One);
    assert !FenceSignals(f, Comms.BufferIndex.Zero, probe);
    assert !FenceSignals(f, Comms.BufferIndex.One, probe);
  }

  // ---------------------------------------------------------------------------
  // A buffer's `pending_present` flag across requests and releases

  /** A buffer request the server accepted: the buffer now owes the application a present. */
  function Requested(rt: MonitorRuntime, b: BufferIndex): (r: MonitorRuntime)
    ensures r.pendingPresent.Get(b)
    ensures r.monitor == rt.monitor && r.releaseFences == rt.releaseFences
    ensures forall c :: c != b ==> r.pendingPresent.Get(c) == rt.pendingPresent.Get(c)
  {
    rt.(pendingPresent := rt.pendingPresent.Set(b, true))
  }

  /** A release that comes with a fence: the fence is kept until it signals; nothing else moves. */
  function StoreFence(rt: MonitorRuntime, b: BufferIndex, fd: int): (r: MonitorRuntime)
    ensures r.releaseFences.Get(b) == Some(fd)
    ensures r.monitor == rt.monitor && r.pendingPresent == rt.pendingPresent
    ensures forall c :: c != b ==> r.releaseFences.Get(c) == rt.releaseFences.Get(c)
  {
    rt.(releaseFences := rt.releaseFences.Set(b, Some(fd)))
  }

  /**
   * A release without a fence: the buffer is free now.  The result says whether a present is
   * due, which is exactly when one was owed; afterwards none is owed.
   */
  function ReleaseNow(rt: MonitorRuntime, b: BufferIndex): (r: (MonitorRuntime, bool))
    ensures r.1 <==> rt.pendingPresent.Get(b)
    ensures !r.0.pendingPresent.Get(b)
    ensures r.0.monitor == rt.monitor && r.0.releaseFences == rt.releaseFences
    ensures forall c :: c != b ==> r.0.pendingPresent.Get(c) == rt.pendingPresent.Get(c)
  {
    (rt.(pendingPresent := rt.pendingPresent.Set(b, false)), rt.pendingPresent.Get(b))
  }

  /** What can happen to a buffer between two requests for it. */
  datatype ReleaseStep =
    | ReleaseWithoutFence
    | ReleaseWithFence(fd: int)
    | FlushReleases(probe: int -> FenceProbe)

  /** The buffer's state after one step, and whether that step presents buffer `b`. */
  function Step(rt: MonitorRuntime, b: BufferIndex, st: ReleaseStep): (MonitorRuntime, bool)
  {
    match st
    case ReleaseWithoutFence => ReleaseNow(rt, b)
    case ReleaseWithFence(fd) => (StoreFence(rt, b, fd), false)
    case FlushReleases(probe) => (FlushMonitor(rt, probe), FlushPresents(rt, b, probe))
  }

  /** How many presents of buffer `b` a run of steps makes. */
  function PresentsAlong(rt: MonitorRuntime, b: BufferIndex, steps: seq<ReleaseStep>): nat
    decreases |steps|
  {
    if steps == [] then 0
    else
      var (next, presented) := Step(rt, b, steps[0]);
      (if presented then 1 else 0) + PresentsAlong(next, b, steps[1..])
  }

  /**
   * At most one present per request: however releases, fences and flushes follow one another,
   * buffer `b` is presented at most once unless it is requested again, and not at all if no
   * present was owed.
   */
  lemma {:induction false} AtMostOnePresent(rt: MonitorRuntime, b: BufferIndex, steps: seq<ReleaseStep>)
    ensures PresentsAlong(rt, b, steps) <= (if rt.pendingPresent.Get(b) then 1 else 0)
    decreases |steps|
  {
    if steps != [] {
      var (next, presented) := Step(rt, b, steps[0]);
      if steps[0].FlushReleases? {
        FlushSettlesSignaledFences(rt, steps[0].probe, b);
      }
      AtMostOnePresent(next, b, steps[1..]);
      assert presented ==> rt.pendingPresent.Get(b) && !next.pendingPresent.Get(b);
      assert next.pendingPresent.Get(b) ==> rt.pendingPresent.Get(b);
    }
  }

  /** A request whose release carries a fence is presented once the fence signals and is flushed. */
  lemma FencedReleasePresentsOnFlush(rt: MonitorRuntime, b: BufferIndex, fd: int, probe: int -> FenceProbe)
    requires Signaled(probe(fd))
    ensures PresentsAlong(Requested(rt, b), b, [ReleaseWithFence(fd), FlushReleases(probe)]) == 1
  {
    var s := StoreFence(Requested(rt, b), b, fd);
    assert FlushPresents(s, b, probe);
    assert PresentsAlong(s, b, [FlushReleases(probe)]) == 1 by {
      assert [FlushReleases(probe)][1..] == [];
    }
    assert [ReleaseWithFence(fd), FlushReleases(probe)][1..] == [FlushReleases(probe)];
  }

  // ---------------------------------------------------------------------------
  // What a flush reports, monitor by monitor

  /** The presents one monitor's flush owes the application, buffer 0 before buffer 1. */
  function MonitorPresents(rt: MonitorRuntime, id: string, probe: int -> FenceProbe): seq<AppEvent>
  {
    (if FlushPresents(rt, Comms.BufferIndex.Zero, probe) then [PresentEvt(id, Comms.BufferIndex.Zero)] else [])
    + (if FlushPresents(rt, Comms.BufferIndex.One, probe) then [PresentEvt(id, Comms.BufferIndex.One)] else [])
  }

  function BufferPollError(rt: MonitorRuntime, b: BufferIndex, probe: int -> FenceProbe): seq<AppEvent>
  {
    match rt.releaseFences.Get(b)
    case Some(fd) => (match probe(fd) case ProbeFailed(errno) => [ErrorEvt(PollError(errno))] case Readable(_) => [])
    case None => []
  }

  /** The polling errors met while flushing one monitor. */
  function MonitorPollErrors(rt: MonitorRuntime, probe: int -> FenceProbe): seq<AppEvent>
  {
    BufferPollError(rt, Comms.BufferIndex.Zero, probe) + BufferPollError(rt, Comms.BufferIndex.One, probe)
  }

  /** The buffers of one monitor a flush hands back to its swapchain. */
  function MonitorReleases(rt: MonitorRuntime, id: string, probe: int -> FenceProbe): seq<SwapchainOp>
  {
    (if FenceSignals(rt, Comms.BufferIndex.Zero, probe) then [MarkReleased(id, Comms.BufferIndex.Zero)] else [])
    + (if FenceSignals(rt, Comms.BufferIndex.One, probe) then [MarkReleased(id, Comms.BufferIndex.One)] else [])
  }

  /** A monitor one of whose fences signaled is ready for another frame (Eager mode). */
  predicate FlushFreesBuffer(rt: MonitorRuntime, probe: int -> FenceProbe)
  {
    FenceSignals(rt, Comms.BufferIndex.Zero, probe) || FenceSignals(rt, Comms.BufferIndex.One, probe)
  }

  function PresentsOver(m: map<string, MonitorRuntime>, order: seq<string>, probe: int -> FenceProbe): seq<AppEvent>
    requires forall i :: 0 <= i < |order| ==> order[i] in m
    decreases |order|
  {
    if order == [] then []
    else PresentsOver(m, order[..|order| - 1], probe) + MonitorPresents(m[order[|order| - 1]], order[|order| - 1], probe)
  }

  function PollErrorsOver(m: map<string, MonitorRuntime>, order: seq<string>, probe: int -> FenceProbe): seq<AppEvent>
    requires forall i :: 0 <= i < |order| ==> order[i] in m
    decreases |order|
  {
    if order == [] then []
    else PollErrorsOver(m, order[..|order| - 1], probe) + MonitorPollErrors(m[order[|order| - 1]], probe)
  }

  function ReleasesOver(m: map<string, MonitorRuntime>, order: seq<string>, probe: int -> FenceProbe): seq<SwapchainOp>
    requires forall i :: 0 <= i < |order| ==> order[i] in m
    decreases |order|
  {
    if order == [] then []
    else ReleasesOver(m, order[..|order| - 1], probe) + MonitorReleases(m[order[|order| - 1]], order[|order| - 1], probe)
  }

  /**
   * A flush presents buffer `b` of monitor `id` exactly when `id` was visited and that buffer's
   * fence signaled while a present was owed.
   */
  lemma {:induction false} PresentsOverExactly(m: map<string, MonitorRuntime>, order: seq<string>,
                                              probe: int -> FenceProbe, id: string, b: BufferIndex)
    requires forall i :: 0 <= i < |order| ==> order[i] in m
    ensures PresentEvt(id, b) in PresentsOver(m, order, probe) <==> id in order && FlushPresents(m[id], b, probe)
    decreases |order|
  {
    if order != [] {
      var init, last := order[..|order| - 1], order[|order| - 1];
      PresentsOverExactly(m, init, probe, id, b);
      assert order == init + [last];
      assert PresentEvt(id, b) in MonitorPresents(m[last], last, probe) <==> id == last && FlushPresents(m[last], b, probe);
    }
  }

  // ---------------------------------------------------------------------------
  // What rendering one scheduled monitor does

  /**
   * The answers `render_scheduled` gets from outside: the buffer the monitor's swapchain hands
   * out, the acquire fence the application leaves for the request, and the server's answer.
   */
  datatype RenderEnv = RenderEnv(
    acquire: string -> Option<BufferIndex>,
    appFence: string -> Option<int>,
    request: (string, BufferIndex, Option<int>) -> RequestOutcome)

  /** Rendering `id`: nothing for an unknown monitor or a full swapchain, else a buffer and the answer. */
  function RenderAttempt(keys: set<string>, id: string, env: RenderEnv): Option<(BufferIndex, RequestOutcome)>
  {
    if id in keys && env.acquire(id).Some? then
      var b := env.acquire(id).value;
      Some((b, env.request(id, b, env.appFence(id))))
    else None
  }

  /** The callbacks: a render, then an error if the request was refused. */
  function RenderEvents(keys: set<string>, id: string, env: RenderEnv): (r: seq<AppEvent>)
    ensures RenderAttempt(keys, id, env).None? <==> r == []
  {
    match RenderAttempt(keys, id, env)
    case None => []
    case Some((b, RequestOk)) => [RenderEvt(id, b)]
    case Some((b, RequestErr(message))) => [RenderEvt(id, b), ErrorEvt(ClientError(message))]
  }

  /** The swapchain calls: the acquisition, then the buffer marked busy or the acquisition undone. */
  function RenderOps(keys: set<string>, id: string, env: RenderEnv): seq<SwapchainOp>
  {
    match RenderAttempt(keys, id, env)
    case None => []
    case Some((b, RequestOk)) => [Acquired(id, b), MarkBusy(id, b)]
    case Some((b, RequestErr(_))) => [Acquired(id, b), Rollback(id)]
  }

  /** Eager mode asks again unless nothing was acquired or the error was about buffer ownership. */
  predicate Reschedules(mode: RenderMode, keys: set<string>, id: string, env: RenderEnv)
  {
    mode == Eager
    && match RenderAttempt(keys, id, env)
       case None => false
       case Some((_, RequestOk)) => true
       case Some((_, RequestErr(message))) => !OwnershipRelated(message)
  }

  /** A monitor after its render: an accepted request leaves a present owed for its buffer. */
  function Rendered(rt: MonitorRuntime, keys: set<string>, id: string, env: RenderEnv): MonitorRuntime
  {
    match RenderAttempt(keys, id, env)
    case Some((b, RequestOk)) => Requested(rt, b)
    case _ => rt
  }

  function RenderEventsOver(keys: set<string>, order: seq<string>, env: RenderEnv): seq<AppEvent>
    decreases |order|
  {
    if order == [] then []
    else RenderEventsOver(keys, order[..|order| - 1], env) + RenderEvents(keys, order[|order| - 1], env)
  }

  function RenderOpsOver(keys: set<string>, order: seq<string>, env: RenderEnv): seq<SwapchainOp>
    decreases |order|
  {
    if order == [] then []
    else RenderOpsOver(keys, order[..|order| - 1], env) + RenderOps(keys, order[|order| - 1], env)
  }

  /** `render_scheduled` renders monitor `id` into buffer `b` exactly when it was scheduled, is known, and `b` was acquired for it. */
  lemma {:induction false} RenderEventsOverExactly(keys: set<string>, order: seq<string>, env: RenderEnv,
                                                  id: string, b: BufferIndex)
    ensures RenderEvt(id, b) in RenderEventsOver(keys, order, env) <==>
      id in order && id in keys && env.acquire(id) == Some(b)
    decreases |order|
  {
    if order != [] {
      var init, last := order[..|order| - 1], order[|order| - 1];
      RenderEventsOverExactly(keys, init, env, id, b);
      assert order == init + [last];
    }
  }

  /** A set of contact ids that is not empty has a member. */
  lemma NonEmptyHasMember(live: set<int>)
    requires live != {}
    ensures exists c :: c in live
  {
    if forall c :: c !in live {
      assert false;
    }
  }

  /** Emitted by `emit_cursor_move`: nothing when the position did not change. */
  function MoveEvents(from: Point, to: Point): (r: seq<AppEvent>)
    ensures r == [] <==> from == to
  {
    if from == to then [] else [PointerMoveEvt(from, to)]
  }

  // ---------------------------------------------------------------------------
  // The runtime

  /** Everything the framework's bookkeeping holds, for saying what an operation leaves alone. */
  datatype FrameworkState = FrameworkState(
    monitors: map<string, MonitorRuntime>,
    scheduled: set<string>,
    cursorPosition: Point,
    touchContacts: map<int, Point>,
    primaryTouchId: Option<int>,
    appEvents: seq<AppEvent>,
    swapchainOps: seq<SwapchainOp>)

  /**
   * The placements `layout_horizontal` returns for the collected specs name every monitor,
   * each with its own size.
   */
  lemma PackingCoversMonitors(m: map<string, MonitorRuntime>, specs: seq<MonitorSpec>, at: map<string, nat>,
                              out: seq<MonitorPlacement>)
    requires forall i :: 0 <= i < |specs| ==> specs[i].id in m && specs[i] == SpecOfRuntime(m[specs[i].id])
    requires at.Keys == m.Keys && forall id :: id in at ==> at[id] < |specs| && specs[at[id]].id == id
    requires multiset(SpecsOf(out)) == multiset(specs)
    ensures forall k :: 0 <= k < |out| ==> out[k].id in m && SpecOf(out[k]) == SpecOfRuntime(m[out[k].id])
    ensures forall id :: id in m ==> exists k :: 0 <= k < |out| && out[k].id == id
  {
    forall k | 0 <= k < |out|
      ensures out[k].id in m && SpecOf(out[k]) == SpecOfRuntime(m[out[k].id])
    {
      assert SpecsOf(out)[k] in multiset(specs);
    }
    forall id | id in m
      ensures exists k :: 0 <= k < |out| && out[k].id == id
    {
      assert specs[at[id]] in multiset(SpecsOf(out));
    }
  }

  /**
   * The monitor loop of `init`: a runtime and a swapchain per reported monitor, a later
   * monitor with the same id replacing an earlier one.  `src` names the report each runtime
   * comes from: for every id, the last report that carries it.
   */
  method BuildMonitors(infos: seq<MonitorInfo>)
    returns (m: map<string, MonitorRuntime>, ops: seq<SwapchainOp>, ghost src: map<string, nat>)
    ensures m.Keys == src.Keys == set info | info in infos :: info.id
    ensures forall id :: id in m ==>
      src[id] < |infos| && infos[src[id]].id == id && m[id] == NewRuntime(FromTabMonitor(infos[src[id]]))
    ensures forall k :: 0 <= k < |infos| ==> infos[k].id in src && k <= src[infos[k].id]
    ensures ops == seq(|infos|, k requires 0 <= k < |infos| => CreateSwapchain(infos[k].id))
  {
    m, ops, src := map[], [], map[];
    for i := 0 to |infos|
      invariant src == LastReports(infos[..i])
      invariant m == Runtimes(infos[..i])
      invariant ops == seq(i, k requires 0 <= k < i => CreateSwapchain(infos[k].id))
    {
      assert infos[..i + 1][..i] == infos[..i];
      m := m[infos[i].id := NewRuntime(FromTabMonitor(infos[i]))];
      ops := ops + [CreateSwapchain(infos[i].id)];
      src := src[infos[i].id := i];
    }
    assert infos[..|infos|] == infos;
    LastReportsMeaning(infos);
  }

  /** For every monitor id, the position of the last report that carries it. */
  ghost function LastReports(infos: seq<MonitorInfo>): map<string, nat>
    decreases |infos|
  {
    if infos == [] then map[]
    else LastReports(infos[..|infos| - 1])[infos[|infos| - 1].id := |infos| - 1]
  }

  /** The runtimes the monitor loop builds, a later report replacing an earlier one. */
  ghost function Runtimes(infos: seq<MonitorInfo>): map<string, MonitorRuntime>
    decreases |infos|
  {
    if infos == [] then map[]
    else Runtimes(infos[..|infos| - 1])[infos[|infos| - 1].id := NewRuntime(FromTabMonitor(infos[|infos| - 1]))]
  }

  /** Each id maps to its last report, and the runtime is built from that report. */
  lemma {:induction false} LastReportsMeaning(infos: seq<MonitorInfo>)
    ensures Runtimes(infos).Keys == LastReports(infos).Keys == set info | info in infos :: info.id
    ensures forall id :: id in LastReports(infos) ==>
      LastReports(infos)[id] < |infos| && infos[LastReports(infos)[id]].id == id
      && Runtimes(infos)[id] == NewRuntime(FromTabMonitor(infos[LastReports(infos)[id]]))
    ensures forall k :: 0 <= k < |infos| ==> infos[k].id in LastReports(infos) && k <= LastReports(infos)[infos[k].id]
  {
    ReportedIds(infos);
    ReportSources(infos);
    LaterReportsWin(infos);
  }

  lemma {:induction false} ReportedIds(infos: seq<MonitorInfo>)
    ensures Runtimes(infos).Keys == LastReports(infos).Keys == set info | info in infos :: info.id
    decreases |infos|
  {
    if infos != [] {
      var init := infos[..|infos| - 1];
      ReportedIds(init);
      assert infos == init + [infos[|infos| - 1]];
    }
  }

  lemma {:induction false} ReportSources(infos: seq<MonitorInfo>)
    ensures LastReports(infos).Keys == Runtimes(infos).Keys
    ensures forall id :: id in LastReports(infos) ==>
      LastReports(infos)[id] < |infos| && infos[LastReports(infos)[id]].id == id
      && Runtimes(infos)[id] == NewRuntime(FromTabMonitor(infos[LastReports(infos)[id]]))
    decreases |infos|
  {
    if infos != [] {
      var init := infos[..|infos| - 1];
      ReportSources(init);
      var src, rt := LastReports(init), Runtimes(init);
      forall id | id in LastReports(infos)
        ensures LastReports(infos)[id] < |infos| && infos[LastReports(infos)[id]].id == id
          && Runtimes(infos)[id] == NewRuntime(FromTabMonitor(infos[LastReports(infos)[id]]))
      {
        if id != infos[|infos| - 1].id {
          assert id in src && init[src[id]] == infos[src[id]];
        }
      }
    }
  }

  lemma {:induction false} LaterReportsWin(infos: seq<MonitorInfo>)
    ensures forall k :: 0 <= k < |infos| ==> infos[k].id in LastReports(infos) && k <= LastReports(infos)[infos[k].id]
    decreases |infos|
  {
    if infos != [] {
      var init := infos[..|infos| - 1];
      LaterReportsWin(init);
      assert forall k :: 0 <= k < |init| ==> init[k] == infos[k];
    }
  }

  /** The position of the first failed swapchain creation, if any. */
  function FirstFailure(errors: seq<Option<string>>): (r: Option<nat>)
    ensures r.Some? ==> r.value < |errors| && errors[r.value].Some? && forall k :: 0 <= k < r.value ==> errors[k].None?
    ensures r.None? <==> forall k :: 0 <= k < |errors| ==> errors[k].None?
    decreases |errors|
  {
    if errors == [] then None
    else if errors[0].Some? then Some(0)
    else match FirstFailure(errors[1..])
      case None => None
      case Some(i) => Some(i + 1)
  }

  /**
   * `TabAppFramework::init` from the point where the client is connected: `swapchainErrors`
   * says, monitor by monitor, whether `create_swapchain` failed.  The first failure aborts
   * the initialisation with that error; otherwise the framework is built as its
   * constructor says.
   */
  method Init(config: Config, infos: seq<MonitorInfo>, swapchainErrors: seq<Option<string>>, initialCursor: Point)
    returns (r: Result<TabAppFramework, FrameworkError>)
    requires |swapchainErrors| == |infos|
    ensures (exists k :: 0 <= k < |infos| && swapchainErrors[k].Some?) <==> r.Err?
    ensures r.Err? ==>
      && FirstFailure(swapchainErrors).Some?
      && r.error == ClientError(swapchainErrors[FirstFailure(swapchainErrors).value].value)
    ensures r.Ok? ==>
      && fresh(r.value) && r.value.Valid() && r.value.renderMode == config.renderMode
      && r.value.monitors.Keys == (set info | info in infos :: info.id)
      && HorizontallyLaidOut(r.value.monitors)
      && r.value.scheduled == (if config.renderMode == Eager then r.value.monitors.Keys else {})
      && r.value.swapchainOps == seq(|infos|, k requires 0 <= k < |infos| => CreateSwapchain(infos[k].id))
  {
    var failure := FirstFailure(swapchainErrors);
    if failure.Some? {
      return Err(ClientError(swapchainErrors[failure.value].value));
    }
    var app := new TabAppFramework(config, infos, initialCursor);
    r := Ok(app);
  }

  /** `TabAppFramework`. */
  class TabAppFramework {
    const renderMode: RenderMode
    /** The monitors by id, each with its release fences and `pending_present` flags. */
    var monitors: map<string, MonitorRuntime>
    /** Monitors with a frame to render on the next `render_scheduled`. */
    var scheduled: set<string>
    var cursorPosition: Point
    var touchContacts: map<int, Point>
    var primaryTouchId: Option<int>
    /** Callbacks made into the application, oldest first. */
    var appEvents: seq<AppEvent>
    /** Calls made on the swapchains, oldest first. */
    var swapchainOps: seq<SwapchainOp>

    ghost function State(): FrameworkState
      reads this
    {
      FrameworkState(monitors, scheduled, cursorPosition, touchContacts, primaryTouchId, appEvents, swapchainOps)
    }

    /** Every monitor is filed under its own id, and the primary contact is a live contact. */
    ghost predicate Valid()
      reads this
    {
      (forall id :: id in monitors ==> monitors[id].monitor.id == id)
      && (primaryTouchId.Some? ==> primaryTouchId.value in touchContacts)
    }

    /**
     * `TabAppFramework::init`, once the configuration is read and the client is connected:
     * one monitor (and swapchain) per monitor the client reports, laid out horizontally, every
     * monitor scheduled in Eager mode and none otherwise, no touch contact.
     */
    constructor (config: Config, infos: seq<MonitorInfo>, initialCursor: Point)
      ensures Valid()
      ensures renderMode == config.renderMode
      ensures monitors.Keys == set info | info in infos :: info.id
      ensures forall id :: id in monitors ==>
        exists k :: 0 <= k < |infos| && infos[k].id == id && SameButPosition(monitors[id], NewRuntime(FromTabMonitor(infos[k])))
      ensures HorizontallyLaidOut(monitors)
      ensures scheduled == (if config.renderMode == Eager then monitors.Keys else {})
      ensures cursorPosition == initialCursor && touchContacts == map[] && primaryTouchId == None
      ensures appEvents == []
      ensures swapchainOps == seq(|infos|, k requires 0 <= k < |infos| => CreateSwapchain(infos[k].id))
    {
      renderMode := config.renderMode;
      var m, ops, src := BuildMonitors(infos);
      monitors := m;
      scheduled := {};
      cursorPosition := initialCursor;
      touchContacts := map[];
      primaryTouchId := None;
      appEvents := [];
      swapchainOps := ops;
      new;
      ghost var placements := RecomputeLayout();
      forall id | id in monitors
        ensures SameButPosition(monitors[id], NewRuntime(FromTabMonitor(infos[src[id]])))
      {
      }
      if renderMode == Eager {
        scheduled := monitors.Keys;
      }
    }

    /** The monitors' specs, in the order `monitors.values()` visits them (chosen freely). */
    method CollectSpecs() returns (specs: seq<MonitorSpec>, ghost at: map<string, nat>)
      requires Valid()
      ensures DistinctIds(specs)
      ensures forall i :: 0 <= i < |specs| ==> specs[i].id in monitors && specs[i] == SpecOfRuntime(monitors[specs[i].id])
      ensures at.Keys == monitors.Keys
      ensures forall id :: id in at ==> at[id] < |specs| && specs[at[id]].id == id
    {
      specs := [];
      at := map[];
      var rest := monitors.Keys;
      while rest != {}
        invariant rest <= monitors.Keys
        invariant at.Keys == monitors.Keys - rest
        invariant forall i :: 0 <= i < |specs| ==>
          specs[i].id in monitors && specs[i].id !in rest && specs[i] == SpecOfRuntime(monitors[specs[i].id])
        invariant forall id :: id in at ==> at[id] < |specs| && specs[at[id]].id == id
        invariant DistinctIds(specs)
        decreases rest
      {
        var id :| id in rest;
        at := at[id := |specs|];
        specs := specs + [SpecOfRuntime(monitors[id])];
        rest := rest - {id};
      }
    }

    /**
     * `recompute_layout`: the monitors are packed left to right in id order; only their
     * positions change.
     */
    method RecomputeLayout() returns (ghost placements: seq<MonitorPlacement>)
      requires Valid()
      modifies this
      ensures Valid()
      ensures monitors.Keys == old(monitors.Keys)
      ensures forall id :: id in monitors ==> SameButPosition(monitors[id], old(monitors[id]))
      ensures PackedBy(monitors, placements)
      ensures scheduled == old(scheduled) && cursorPosition == old(cursorPosition) && appEvents == old(appEvents)
      ensures touchContacts == old(touchContacts) && primaryTouchId == old(primaryTouchId)
      ensures swapchainOps == old(swapchainOps)
    {
      var specs, at := CollectSpecs();
      var out := LayoutHorizontal(specs);
      PermutationKeepsDistinctIds(specs, SpecsOf(out));
      PackingCoversMonitors(monitors, specs, at, out);
      PlaceAll(out);
      placements := out;
    }

    /** The loop of `recompute_layout` that moves every monitor to its placement. */
    method PlaceAll(out: seq<MonitorPlacement>)
      requires Valid()
      requires forall k :: 0 <= k < |out| ==> out[k].id in monitors && SpecOf(out[k]) == SpecOfRuntime(monitors[out[k].id])
      requires DistinctIds(SpecsOf(out))
      modifies this
      ensures Valid()
      ensures monitors.Keys == old(monitors.Keys)
      ensures forall id :: id in monitors ==> SameButPosition(monitors[id], old(monitors[id]))
      ensures forall k :: 0 <= k < |out| ==> out[k] == PlacementOf(monitors[out[k].id])
      ensures State() == old(State()).(monitors := monitors)
    {
      monitors := PlaceEach(monitors, out);
    }

    /** `current_layout`: every monitor once, at its current position, in the map's order. */
    method CurrentLayout() returns (placements: seq<MonitorPlacement>)
      requires Valid()
      ensures ListsMonitors(placements, monitors)
    {
      var specs, at := CollectSpecs();
      var m := monitors;
      placements := seq(|specs|, i requires 0 <= i < |specs| => PlacementOf(m[specs[i].id]));
      forall id | id in monitors
        ensures exists i :: 0 <= i < |placements| && placements[i].id == id
      {
        assert placements[at[id]].id == id;
      }
    }

    /** `Context::apply_horizontal_layout`; `clamped` is the cursor clamped to the new layout. */
    method ApplyHorizontalLayout(clamped: Point) returns (ghost placements: seq<MonitorPlacement>)
      requires Valid()
      modifies this
      ensures Valid()
      ensures monitors.Keys == old(monitors.Keys)
      ensures forall id :: id in monitors ==> SameButPosition(monitors[id], old(monitors[id]))
      ensures PackedBy(monitors, placements)
      ensures State() == old(State()).(monitors := monitors, cursorPosition := clamped)
    {
      placements := RecomputeLayout();
      cursorPosition := clamped;
    }

    /**
     * `Context::set_monitor_position`: an unknown monitor is an error and changes nothing; a
     * position that would leave an invalid layout is put back and reported; otherwise the
     * monitor stays at (x, y) and the cursor is clamped into the new layout (`clamped`).
     */
    method SetMonitorPosition(id: string, x: I32, y: I32, clamped: Point)
      returns (r: Result<(), FrameworkError>, ghost placements: seq<MonitorPlacement>)
      requires Valid()
      modifies this
      ensures Valid()
      ensures id !in old(monitors) ==> r == Err(MonitorNotFound(id)) && State() == old(State())
      ensures id in old(monitors) ==>
        ListsMonitors(placements, old(monitors)[id := MoveTo(old(monitors)[id], x, y)])
        && (r.Ok? <==> ValidLayout(placements))
      ensures r.Ok? ==>
        State() == old(State()).(monitors := old(monitors)[id := MoveTo(old(monitors)[id], x, y)], cursorPosition := clamped)
      ensures r.Err? ==> State() == old(State())
      ensures r.Err? && id in old(monitors) ==> r == Err(ConfigError(INVALID_LAYOUT))
    {
      if id !in monitors {
        return Err(MonitorNotFound(id)), [];
      }
      var oldX, oldY := monitors[id].monitor.x, monitors[id].monitor.y;
      MoveBack(monitors, id, x, y);
      monitors := monitors[id := MoveTo(monitors[id], x, y)];
      var current := CurrentLayout();
      placements := current;
      var valid := IsValidEdgeContiguousLayout(current);
      if !valid {
        monitors := monitors[id := MoveTo(monitors[id], oldX, oldY)];
        return Err(ConfigError(INVALID_LAYOUT)), placements;
      }
      cursorPosition := clamped;
      r := Ok(());
    }

    /** `Context::schedule_frame`: any id, known or not, is added. */
    method ScheduleFrame(id: string)
      modifies this
      ensures State() == old(State()).(scheduled := old(scheduled) + {id})
    {
      scheduled := scheduled + {id};
    }

    /** `Context::schedule_all_frames`: every known monitor is added. */
    method ScheduleAllFrames()
      modifies this
      ensures State() == old(State()).(scheduled := old(scheduled) + monitors.Keys)
    {
      scheduled := scheduled + monitors.Keys;
    }

    /**
     * A monitor-added event: its swapchain is created (`swapchainError` is what that call
     * reports, which aborts the drain), it is scheduled in Eager mode, the layout is packed
     * again, the cursor clamped into it (`clamped`) and the application told.  A monitor
     * already known under that id starts afresh.
     */
    method HandleMonitorAdded(info: MonitorInfo, swapchainError: Option<string>, clamped: Point)
      returns (r: Result<(), FrameworkError>, ghost placements: seq<MonitorPlacement>)
      requires Valid()
      modifies this
      ensures Valid()
      ensures swapchainError.Some? ==>
        r == Err(ClientError(swapchainError.value))
        && State() == old(State()).(swapchainOps := old(swapchainOps) + [CreateSwapchain(info.id)])
      ensures swapchainError.None? ==>
        r == Ok(())
        && monitors.Keys == old(monitors.Keys) + {info.id}
        && SameButPosition(monitors[info.id], NewRuntime(FromTabMonitor(info)))
        && (forall id :: id in old(monitors) && id != info.id ==> SameButPosition(monitors[id], old(monitors[id])))
        && PackedBy(monitors, placements)
        && scheduled == (if renderMode == Eager then old(scheduled) + {info.id} else old(scheduled))
        && cursorPosition == clamped
        && appEvents == old(appEvents) + [MonitorAddedEvt(monitors[info.id].monitor)]
        && touchContacts == old(touchContacts) && primaryTouchId == old(primaryTouchId)
        && swapchainOps == old(swapchainOps) + [CreateSwapchain(info.id)]
    {
      swapchainOps := swapchainOps + [CreateSwapchain(info.id)];
      if swapchainError.Some? {
        return Err(ClientError(swapchainError.value)), [];
      }
      placements := AddMonitor(FromTabMonitor(info), clamped);
      r := Ok(());
    }

    /** The rest of a monitor-added event once its swapchain exists. */
    method AddMonitor(monitor: Monitor, clamped: Point) returns (ghost placements: seq<MonitorPlacement>)
      requires Valid()
      modifies this
      ensures Valid()
      ensures monitors.Keys == old(monitors.Keys) + {monitor.id}
      ensures SameButPosition(monitors[monitor.id], NewRuntime(monitor))
      ensures forall id :: id in old(monitors) && id != monitor.id ==> SameButPosition(monitors[id], old(monitors[id]))
      ensures PackedBy(monitors, placements)
      ensures scheduled == if renderMode == Eager then old(scheduled) + {monitor.id} else old(scheduled)
      ensures cursorPosition == clamped
      ensures appEvents == old(appEvents) + [MonitorAddedEvt(monitors[monitor.id].monitor)]
      ensures touchContacts == old(touchContacts) && primaryTouchId == old(primaryTouchId)
      ensures swapchainOps == old(swapchainOps)
    {
      InsertMonitor(monitor);
      placements := RecomputeLayout();
      NoteAdded(monitor.id, clamped);
    }

    /** The cursor is clamped into the new layout and the application told of the monitor. */
    method NoteAdded(id: string, clamped: Point)
      requires id in monitors
      modifies this
      ensures monitors == old(monitors) && scheduled == old(scheduled)
      ensures cursorPosition == clamped
      ensures appEvents == old(appEvents) + [MonitorAddedEvt(old(monitors)[id].monitor)]
      ensures touchContacts == old(touchContacts) && primaryTouchId == old(primaryTouchId)
      ensures swapchainOps == old(swapchainOps)
    {
      cursorPosition := clamped;
      appEvents := appEvents + [MonitorAddedEvt(monitors[id].monitor)];
    }

    /** Scheduling (in Eager mode) and filing a new monitor, before the layout is recomputed. */
    method InsertMonitor(monitor: Monitor)
      requires Valid()
      modifies this
      ensures Valid()
      ensures monitors == old(monitors)[monitor.id := NewRuntime(monitor)]
      ensures scheduled == if renderMode == Eager then old(scheduled) + {monitor.id} else old(scheduled)
      ensures cursorPosition == old(cursorPosition) && appEvents == old(appEvents)
      ensures touchContacts == old(touchContacts) && primaryTouchId == old(primaryTouchId)
      ensures swapchainOps == old(swapchainOps)
    {
      if renderMode == Eager {
        scheduled := scheduled + {monitor.id};
      }
      monitors := monitors[monitor.id := NewRuntime(monitor)];
    }

    /**
     * A monitor-removed event: the monitor leaves both the monitors and the scheduled set, the
     * rest is packed again, the cursor clamped (`clamped`) and the application told.
     */
    method HandleMonitorRemoved(id: string, name: string, clamped: Point) returns (ghost placements: seq<MonitorPlacement>)
      requires Valid()
      modifies this
      ensures Valid()
      ensures id !in monitors && id !in scheduled
      ensures monitors.Keys == old(monitors.Keys) - {id}
      ensures forall k :: k in monitors ==> SameButPosition(monitors[k], old(monitors[k]))
      ensures PackedBy(monitors, placements)
      ensures State() == old(State()).(
        monitors := monitors,
        scheduled := old(scheduled) - {id},
        cursorPosition := clamped,
        appEvents := old(appEvents) + [MonitorRemovedEvt(id, name)])
    {
      monitors := monitors - {id};
      placements := RecomputeLayout();
      NoteRemoved(id, name, clamped);
    }

    /** The cursor is clamped into what is left, the monitor unscheduled and the application told. */
    method NoteRemoved(id: string, name: string, clamped: Point)
      modifies this
      ensures State() == old(State()).(
        scheduled := old(scheduled) - {id},
        cursorPosition := clamped,
        appEvents := old(appEvents) + [MonitorRemovedEvt(id, name)])
    {
      cursorPosition := clamped;
      scheduled := scheduled - {id};
      appEvents := appEvents + [MonitorRemovedEvt(id, name)];
    }

    /**
     * A buffer-released event for an unknown monitor is ignored.  With a fence, the fence is
     * stored until it signals.  Without one, the buffer goes back to its swapchain, Eager mode
     * schedules the monitor, and the application gets a present exactly when one was owed.
     */
    method HandleBufferReleased(id: string, b: BufferIndex, fence: Option<int>) returns (presented: bool)
      requires Valid()
      modifies this
      ensures Valid()
      ensures presented <==> id in old(monitors) && fence.None? && old(monitors)[id].pendingPresent.Get(b)
      ensures id !in old(monitors) ==> State() == old(State())
      ensures id in old(monitors) && fence.Some? ==>
        State() == old(State()).(monitors := old(monitors)[id := StoreFence(old(monitors)[id], b, fence.value)])
      ensures id in old(monitors) && fence.None? ==>
        State() == old(State()).(
          monitors := old(monitors)[id := ReleaseNow(old(monitors)[id], b).0],
          scheduled := if renderMode == Eager then old(scheduled) + {id} else old(scheduled),
          appEvents := old(appEvents) + (if presented then [PresentEvt(id, b)] else []),
          swapchainOps := old(swapchainOps) + [MarkReleased(id, b)])
    {
      presented := false;
      if id in monitors {
        match fence
        case Some(fd) =>
          monitors := monitors[id := StoreFence(monitors[id], b, fd)];
        case None =>
          var (rt, due) := ReleaseNow(monitors[id], b);
          presented := due;
          monitors := monitors[id := rt];
          swapchainOps := swapchainOps + [MarkReleased(id, b)];
          if renderMode == Eager {
            scheduled := scheduled + {id};
          }
      }
      if presented {
        appEvents := appEvents + [PresentEvt(id, b)];
      }
    }

    /**
     * A touch-down at `position` (the contact's point clamped into the layout).  The cursor
     * follows every contact that goes down; the first contact while there is no primary one
     * becomes primary and also acts as a pointer: a move (if the cursor moved) and a press.
     */
    method HandleTouchDown(contact: int, position: Point)
      requires Valid()
      modifies this
      ensures Valid()
      ensures old(primaryTouchId).None? ==>
        State() == old(State()).(
          cursorPosition := position,
          touchContacts := old(touchContacts)[contact := position],
          primaryTouchId := Some(contact),
          appEvents := old(appEvents) + [TouchDownEvt(contact)] + MoveEvents(old(cursorPosition), position)
            + [PointerDownEvt(position)])
      ensures old(primaryTouchId).Some? ==>
        State() == old(State()).(
          cursorPosition := position,
          touchContacts := old(touchContacts)[contact := position],
          appEvents := old(appEvents) + [TouchDownEvt(contact)])
    {
      var oldPosition := cursorPosition;
      cursorPosition := position;
      touchContacts := touchContacts[contact := position];
      appEvents := appEvents + [TouchDownEvt(contact)];
      if primaryTouchId.None? {
        primaryTouchId := Some(contact);
        appEvents := appEvents + MoveEvents(oldPosition, cursorPosition);
        appEvents := appEvents + [PointerDownEvt(cursorPosition)];
      }
    }

    /** A touch-motion to `position`: the contact is recorded there; only the primary one moves the cursor. */
    method HandleTouchMotion(contact: int, position: Point)
      requires Valid()
      modifies this
      ensures Valid()
      ensures old(primaryTouchId) == Some(contact) ==>
        State() == old(State()).(
          cursorPosition := position,
          touchContacts := old(touchContacts)[contact := position],
          appEvents := old(appEvents) + [TouchMotionEvt(contact)] + MoveEvents(old(cursorPosition), position))
      ensures old(primaryTouchId) != Some(contact) ==>
        State() == old(State()).(
          touchContacts := old(touchContacts)[contact := position],
          appEvents := old(appEvents) + [TouchMotionEvt(contact)])
    {
      touchContacts := touchContacts[contact := position];
      appEvents := appEvents + [TouchMotionEvt(contact)];
      if primaryTouchId == Some(contact) {
        var oldPosition := cursorPosition;
        cursorPosition := position;
        appEvents := appEvents + MoveEvents(oldPosition, cursorPosition);
      }
    }

    /**
     * A touch-up: the contact is forgotten.  When it was the primary one, the pointer is
     * released where the cursor is, and some remaining contact (any, in the map's order)
     * becomes primary, or none if no contact is left.
     */
    method HandleTouchUp(contact: int)
      requires Valid()
      modifies this
      ensures Valid()
      ensures touchContacts == old(touchContacts) - {contact}
      ensures old(primaryTouchId) == Some(contact) ==>
        (primaryTouchId.None? <==> touchContacts.Keys == {})
        && appEvents == old(appEvents) + [TouchUpEvt(contact), PointerUpEvt(cursorPosition)]
      ensures old(primaryTouchId) != Some(contact) ==>
        primaryTouchId == old(primaryTouchId) && appEvents == old(appEvents) + [TouchUpEvt(contact)]
      ensures State() == old(State()).(touchContacts := touchContacts, primaryTouchId := primaryTouchId, appEvents := appEvents)
    {
      touchContacts := touchContacts - {contact};
      appEvents := appEvents + [TouchUpEvt(contact)];
      if primaryTouchId == Some(contact) {
        appEvents := appEvents + [PointerUpEvt(cursorPosition)];
        var live := touchContacts.Keys;
        if live == {} {
          primaryTouchId := None;
        } else {
          NonEmptyHasMember(live);
          var next :| next in live;
          primaryTouchId := Some(next);
        }
      }
    }

    /** A touch-cancel: every contact and the primary one are dropped; a pointer-up only if there was a primary. */
    method HandleTouchCancel()
      requires Valid()
      modifies this
      ensures Valid()
      ensures State() == old(State()).(
        touchContacts := map[],
        primaryTouchId := None,
        appEvents := old(appEvents) + [TouchCancelEvt]
          + (if old(primaryTouchId).Some? then [PointerUpEvt(old(cursorPosition))] else []))
    {
      appEvents := appEvents + [TouchCancelEvt];
      var hadPrimary := primaryTouchId.Some?;
      primaryTouchId := None;
      if hadPrimary {
        appEvents := appEvents + [PointerUpEvt(cursorPosition)];
      }
      touchContacts := map[];
    }

    /**
     * `flush_pending_releases`: every monitor drops the fences `probe` reports signaled or
     * unpollable, hands those buffers back to its swapchain and owes a present for each of them
     * that was pending (see `FlushAll`).  Eager mode schedules the monitors that got a buffer
     * back.  The presents are delivered first, then the polling errors.
     */
    method FlushPendingReleases(probe: int -> FenceProbe) returns (ghost order: seq<string>)
      requires Valid()
      modifies this
      ensures Valid()
      ensures Seqs.NoDuplicates(order) && forall id :: id in order <==> id in old(monitors)
      ensures monitors.Keys == old(monitors.Keys)
      ensures forall id :: id in monitors ==> monitors[id] == FlushMonitor(old(monitors)[id], probe)
      ensures State() == old(State()).(
        monitors := monitors,
        scheduled := if renderMode == Eager
          then old(scheduled) + (set id | id in old(monitors) && FlushFreesBuffer(old(monitors)[id], probe))
          else old(scheduled),
        appEvents := old(appEvents) + PresentsOver(old(monitors), order, probe) + PollErrorsOver(old(monitors), order, probe),
        swapchainOps := old(swapchainOps) + ReleasesOver(old(monitors), order, probe))
    {
      var m, presents, errors, ops, ready;
      m, presents, errors, ops, ready, order := FlushAll(monitors, probe);
      monitors := m;
      swapchainOps := swapchainOps + ops;
      if renderMode == Eager {
        scheduled := scheduled + ready;
      }
      appEvents := appEvents + presents + errors;
    }

    /**
     * `render_scheduled`: the scheduled set is emptied and each of its monitors is rendered as
     * `env` answers (see `RenderAll`); Eager mode schedules again the monitors `Reschedules` names.
     */
    method RenderScheduled(env: RenderEnv) returns (ghost order: seq<string>)
      requires Valid()
      modifies this
      ensures Valid()
      ensures Seqs.NoDuplicates(order) && forall id :: id in order <==> id in old(scheduled)
      ensures scheduled == set id | id in old(scheduled) && Reschedules(renderMode, old(monitors.Keys), id, env)
      ensures renderMode == Scheduled ==> scheduled == {}
      ensures monitors.Keys == old(monitors.Keys)
      ensures forall id :: id in monitors ==>
        monitors[id] == if id in old(scheduled) then Rendered(old(monitors)[id], old(monitors.Keys), id, env) else old(monitors)[id]
      ensures State() == old(State()).(
        monitors := monitors,
        scheduled := scheduled,
        appEvents := old(appEvents) + RenderEventsOver(old(monitors.Keys), order, env),
        swapchainOps := old(swapchainOps) + RenderOpsOver(old(monitors.Keys), order, env))
    {
      var m, again, events, ops;
      m, again, events, ops, order := RenderAll(monitors, scheduled, renderMode, env);
      monitors := m;
      scheduled := again;
      appEvents := appEvents + events;
      swapchainOps := swapchainOps + ops;
    }
  }

  /** The loop of `recompute_layout`: each placed monitor is moved to its placement. */
  method PlaceEach(m0: map<string, MonitorRuntime>, out: seq<MonitorPlacement>) returns (m: map<string, MonitorRuntime>)
    requires forall id :: id in m0 ==> m0[id].monitor.id == id
    requires forall k :: 0 <= k < |out| ==> out[k].id in m0 && SpecOf(out[k]) == SpecOfRuntime(m0[out[k].id])
    requires DistinctIds(SpecsOf(out))
    ensures m.Keys == m0.Keys
    ensures forall id :: id in m ==> SameButPosition(m[id], m0[id]) && m[id].monitor.id == id
    ensures forall k :: 0 <= k < |out| ==> out[k] == PlacementOf(m[out[k].id])
  {
    m := m0;
    for i := 0 to |out|
      invariant m.Keys == m0.Keys
      invariant forall id :: id in m ==> SameButPosition(m[id], m0[id]) && m[id].monitor.id == id
      invariant forall k :: 0 <= k < i ==> out[k] == PlacementOf(m[out[k].id])
    {
      var p := out[i];
      assert SpecsOf(out)[i] == SpecOf(p);
      forall k | 0 <= k < i
        ensures out[k].id != p.id
      {
        assert SpecsOf(out)[k] == SpecOf(out[k]);
      }
      m := m[p.id := MoveTo(m[p.id], p.x, p.y)];
    }
  }

  /**
   * The loop of `flush_pending_releases` over the monitors, in the map's order (`order`):
   * each monitor is flushed, and its presents, polling errors and released buffers are
   * collected, as are (in `ready`) the monitors that got a buffer back.
   */
  method FlushAll(monitors: map<string, MonitorRuntime>, probe: int -> FenceProbe)
    returns (m: map<string, MonitorRuntime>, presents: seq<AppEvent>, errors: seq<AppEvent>,
             ops: seq<SwapchainOp>, ready: set<string>, ghost order: seq<string>)
    ensures Seqs.NoDuplicates(order) && forall id :: id in order <==> id in monitors
    ensures m.Keys == monitors.Keys
    ensures forall id :: id in m ==> m[id] == FlushMonitor(monitors[id], probe)
    ensures presents == PresentsOver(monitors, order, probe)
    ensures errors == PollErrorsOver(monitors, order, probe)
    ensures ops == ReleasesOver(monitors, order, probe)
    ensures ready == set id | id in monitors && FlushFreesBuffer(monitors[id], probe)
  {
    m := monitors;
    presents, errors, ops, ready := [], [], [], {};
    var rest := m.Keys;
    order := [];
    while rest != {}
      invariant rest <= monitors.Keys && m.Keys == monitors.Keys
      invariant forall id :: id in m ==> m[id] == if id in rest then monitors[id] else FlushMonitor(monitors[id], probe)
      invariant Seqs.NoDuplicates(order) && forall id :: id in order <==> id in monitors && id !in rest
      invariant presents == PresentsOver(monitors, order, probe)
      invariant errors == PollErrorsOver(monitors, order, probe)
      invariant ops == ReleasesOver(monitors, order, probe)
      invariant forall id :: id in ready <==> id in order && FlushFreesBuffer(monitors[id], probe)
      decreases rest
    {
      var id :| id in rest;
      var rt := m[id];
      presents := presents + MonitorPresents(rt, id, probe);
      errors := errors + MonitorPollErrors(rt, probe);
      ops := ops + MonitorReleases(rt, id, probe);
      if FlushFreesBuffer(rt, probe) {
        ready := ready + {id};
      }
      m := m[id := FlushMonitor(rt, probe)];
      Seqs.AppendKeepsNoDuplicates(order, id);
      ghost var done := order;
      order := order + [id];
      assert order[..|order| - 1] == done;
      rest := rest - {id};
    }
  }

  /**
   * The loop of `render_scheduled` over the drained targets, in the set's order (`order`):
   * a known monitor with a buffer to acquire is rendered and its buffer requested; an accepted
   * request leaves a present owed (`Rendered`); `again` collects the monitors `Reschedules` names.
   */
  method RenderAll(monitors: map<string, MonitorRuntime>, targets: set<string>, mode: RenderMode, env: RenderEnv)
    returns (m: map<string, MonitorRuntime>, again: set<string>, events: seq<AppEvent>,
             ops: seq<SwapchainOp>, ghost order: seq<string>)
    ensures Seqs.NoDuplicates(order) && forall id :: id in order <==> id in targets
    ensures m.Keys == monitors.Keys
    ensures forall id :: id in m ==>
      m[id] == if id in targets then Rendered(monitors[id], monitors.Keys, id, env) else monitors[id]
    ensures again == set id | id in targets && Reschedules(mode, monitors.Keys, id, env)
    ensures mode == Scheduled ==> again == {}
    ensures events == RenderEventsOver(monitors.Keys, order, env)
    ensures ops == RenderOpsOver(monitors.Keys, order, env)
  {
    m := monitors;
    again, events, ops := {}, [], [];
    var rest := targets;
    order := [];
    while rest != {}
      invariant rest <= targets && m.Keys == monitors.Keys
      invariant forall id :: id in m ==>
        m[id] == if id in targets && id !in rest then Rendered(monitors[id], monitors.Keys, id, env) else monitors[id]
      invariant Seqs.NoDuplicates(order) && forall id :: id in order <==> id in targets && id !in rest
      invariant forall id :: id in again <==> id in order && Reschedules(mode, monitors.Keys, id, env)
      invariant events == RenderEventsOver(monitors.Keys, order, env)
      invariant ops == RenderOpsOver(monitors.Keys, order, env)
      decreases rest
    {
      var id :| id in rest;
      rest := rest - {id};
      Seqs.AppendKeepsNoDuplicates(order, id);
      ghost var done := order;
      order := order + [id];
      assert order[..|order| - 1] == done;
      var stepEvents, stepOps, renderAgain;
      m, stepEvents, stepOps, renderAgain := RenderOne(m, monitors.Keys, id, mode, env);
      events := events + stepEvents;
      ops := ops + stepOps;
      if renderAgain {
        again := again + {id};
      }
    }
  }

  /** One target of `render_scheduled`'s loop. */
  method RenderOne(m: map<string, MonitorRuntime>, keys: set<string>, id: string, mode: RenderMode, env: RenderEnv)
    returns (m': map<string, MonitorRuntime>, events: seq<AppEvent>, ops: seq<SwapchainOp>, renderAgain: bool)
    requires m.Keys == keys
    ensures m' == if id in m then m[id := Rendered(m[id], keys, id, env)] else m
    ensures events == RenderEvents(keys, id, env)
    ensures ops == RenderOps(keys, id, env)
    ensures renderAgain == Reschedules(mode, keys, id, env)
  {
    m' := m;
    events, ops, renderAgain := [], [], false;
    if id in m && env.acquire(id).Some? {
      var b := env.acquire(id).value;
      ops := ops + [Acquired(id, b)];
      events := events + [RenderEvt(id, b)];
      var fence := env.appFence(id);
      match env.request(id, b, fence)
      case RequestOk =>
        ops := ops + [MarkBusy(id, b)];
        m' := m[id := Requested(m[id], b)];
        if mode == Eager {
          renderAgain := true;
        }
      case RequestErr(message) =>
        ops := ops + [Rollback(id)];
        if mode == Eager && !OwnershipRelated(message) {
          renderAgain := true;
        }
        events := events + [ErrorEvt(ClientError(message))];
    }
  }
}
