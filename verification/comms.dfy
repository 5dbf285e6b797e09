/**
 * Messages exchanged between shift's layers: client to server (shift/src/comms/client2server.rs),
 * server to client (shift/src/comms/server2client.rs), and the command and event channels
 * between the server and the rendering layer.  Clock readings and durations are plain
 * numbers in one common unit; file descriptors are numbers.
 */
module Comms {
  import opened Wrappers
  import opened Ids
  import Roles
  import Sessions
  import Tokens

  /** The protocol's buffer index: every client surface is double-buffered. */
  datatype BufferIndex = Zero | One

  /** A sync-file descriptor (acquire or release fence) passed along with a message. */
  datatype Fence = Fence(fd: int)

  /** A monitor as the server layer knows it (shift/src/monitor/mod.rs). */
  datatype Monitor = Monitor(id: MonitorId, width: int, height: int, refreshRate: nat, name: string)

  datatype SessionCreatePayload = SessionCreatePayload(role: Roles.SessionRole, displayName: Option<string>)

  datatype SessionSwitchPayload = SessionSwitchPayload(sessionId: string, animation: Option<string>, duration: nat)

  datatype SessionReadyPayload = SessionReadyPayload(sessionId: string)

  /** Only the monitor id of a framebuffer link matters to the bookkeeping modelled here. */
  datatype FramebufferLinkPayload = FramebufferLinkPayload(monitorId: string)

  datatype C2SMsg =
    | Shutdown
    | Auth(token: Tokens.Token)
    | CreateSession(create: SessionCreatePayload)
    | SwitchSession(switch: SessionSwitchPayload)
    | SessionReady(ready: SessionReadyPayload)
    | BufferRequest(monitorId: MonitorId, buffer: BufferIndex, acquireFence: Option<Fence>)
    | FramebufferLink(link: FramebufferLinkPayload, dmaBufs: seq<Fence>)

  /** shift/src/auth/error.rs */
  datatype AuthError = InvalidToken | NotFound

  /** Server-to-client messages; error details (free text) are not modelled. */
  datatype S2CMsg =
    | BindToSession(session: Sessions.Session)
    | AuthErrorMsg(authError: AuthError)
    | SessionCreated(token: Tokens.Token, pending: Sessions.PendingSession)
    | ErrorMsg(code: string, shutdown: bool)
    | BufferReleaseMsg(releaseMonitor: MonitorId, releaseBuffer: BufferIndex, releaseFence: Option<Fence>)
    | BufferRequestAckMsg(ackMonitor: MonitorId, ackBuffer: BufferIndex)
    | SessionActive(activeId: SessionId)
    | SessionAwake(awakeId: SessionId)
    | SessionSleep(sleepId: SessionId)

  datatype SessionTransition = SessionTransition(fromSession: SessionId, animation: string, duration: nat)

  datatype RenderCmd =
    | ShutdownCmd
    | FramebufferLinkCmd(payload: FramebufferLinkPayload, dmaBufs: seq<Fence>, linkSession: SessionId)
    | SetActiveSession(session: Option<SessionId>, transition: Option<SessionTransition>)
    | SessionRemoved(removed: SessionId)
    | SwapBuffers(swapMonitor: MonitorId, swapBuffer: BufferIndex, swapSession: SessionId, acquireFence: Option<Fence>)

  datatype RenderEvt =
    | Started(monitors: seq<Monitor>)
    | MonitorOnline(monitor: Monitor)
    | MonitorOffline(offline: MonitorId)
    | BufferRequestAck(ackSession: SessionId, ackMonitor: MonitorId, ackBuffer: BufferIndex)
    | BufferRequestRejected(rejSession: SessionId, rejMonitor: MonitorId, rejBuffer: BufferIndex, reason: string)
    | BufferConsumed(relSession: SessionId, relMonitor: MonitorId, relBuffer: BufferIndex, releaseFence: Option<Fence>)
    | FatalError(fatal: string)
    | PageFlip(flipped: seq<MonitorId>)

  /** `collect()` of monitors into a map keyed by id: a later duplicate id wins. */
  function MonitorMap(ms: seq<Monitor>): (m: map<MonitorId, Monitor>)
    ensures m.Keys == set x | x in ms :: x.id
    ensures forall id :: id in m ==> m[id] in ms && m[id].id == id
    decreases |ms|
  {
    if ms == [] then map[]
    else MonitorMap(ms[..|ms| - 1])[ms[|ms| - 1].id := ms[|ms| - 1]]
  }

  /** Of several monitors with one id, the map keeps the last. */
  lemma {:induction false} MonitorMapKeepsLast(ms: seq<Monitor>, i: nat)
    requires i < |ms|
    requires forall k :: i < k < |ms| ==> ms[k].id != ms[i].id
    ensures MonitorMap(ms)[ms[i].id] == ms[i]
    decreases |ms|
  {
    var init := ms[..|ms| - 1];
    if i < |init| {
      forall k | i < k < |init|
        ensures init[k].id != init[i].id
      {
        assert init[k] == ms[k];
      }
      MonitorMapKeepsLast(init, i);
      assert ms[|ms| - 1].id != ms[i].id;
    }
  }
}
