/**
 * The server layer of shift (shift/src/server_layer/server.rs): it owns the session
 * tables, the connected clients, the awake bookkeeping and the per-buffer ownership, and
 * turns client messages and render events into replies and render commands.
 *
 * The clock is the `now` parameter; the randomness behind a new session is the `random`
 * and `id` parameters.  A client's outgoing channel is summarised by `reachable`: a
 * `notify_*` call to it succeeds exactly when it is set.  Replies to the requesting client
 * are appended to `outbox`, and commands the render channel accepted to `renderCommands`.
 */
module Server {
  import opened Wrappers
  import opened Ids
  import Roles
  import opened Sessions
  import opened Tokens
  import opened Comms
  import opened ServerSupport
  import opened Seqs
  import Base64Url

  /** What the server keeps of a connected client: the session its view is bound to. */
  datatype ConnectedClient = ConnectedClient(session: Option<SessionId>, reachable: bool)

  /** A message handed to a client's outgoing channel. */
  datatype Notice = Notice(to: ClientId, msg: S2CMsg)

  /** Snapshot of every field of the server, to state what a handler leaves alone. */
  datatype ServerState = ServerState(
    currentSession: Option<SessionId>,
    pendingSessions: map<Token, PendingSession>,
    activeSessions: map<SessionId, Session>,
    loadingSessions: set<SessionId>,
    awakeSessions: set<SessionId>,
    awakeUntil: map<SessionId, int>,
    connectedClients: map<ClientId, ConnectedClient>,
    renderCommands: seq<RenderCmd>,
    monitors: map<MonitorId, Monitor>,
    pendingBufferRequests: seq<PendingBufferRequest>,
    waitingFlip: seq<PendingFlip>,
    frontBuffers: map<(SessionId, MonitorId), BufferIndex>,
    bufferOwnership: map<(SessionId, MonitorId, BufferIndex), BufferOwner>,
    swapBuffersReceived: nat,
    frameDoneEmitted: nat,
    outbox: seq<Notice>)

  /**
   * The server state after `Auth` admits `session` for the connected client `c`: the
   * client is bound to it, it becomes active, a session that is normal and not ready
   * starts loading and the awake set is recomputed, the first admin becomes current, and
   * the client is told whether its session is awake (unless it just became current) and
   * which session is current.
   */
  ghost function Admitted(st: ServerState, c: ClientId, session: Session, now: int, renderAlive: bool): ServerState
    requires c in st.connectedClients
  {
    var loads := session.role.Normal? && !session.ready;
    var firstAdmin := session.role.Admin? && st.currentSession.None?;
    var loading := if loads then st.loadingSessions + {session.id} else st.loadingSessions;
    var current := if firstAdmin then Some(session.id) else st.currentSession;
    var awake :=
      if loads || firstAdmin then AwakeSet(current, loading, st.awakeUntil, now) else st.awakeSessions;
    var until :=
      if loads then KeptDeadlines(st.awakeUntil, awake)
      else if firstAdmin then st.awakeUntil - Expired(st.awakeUntil, now)
      else st.awakeUntil;
    var report :=
      (if firstAdmin then [] else [Notice(c, if session.id in awake then SessionAwake(session.id) else SessionSleep(session.id))])
      + (if current.Some? then [Notice(c, SessionActive(current.value))] else []);
    st.(connectedClients := st.connectedClients[c := st.connectedClients[c].(session := Some(session.id))],
        activeSessions := st.activeSessions[session.id := session],
        loadingSessions := loading, currentSession := current, awakeSessions := awake, awakeUntil := until,
        renderCommands := st.renderCommands + (if firstAdmin && renderAlive then [SetActiveSession(current, None)] else []),
        outbox := st.outbox + report)
  }

  /** The buffer owners of every session but `s`. */
  function OwnersWithout(owners: map<(SessionId, MonitorId, BufferIndex), BufferOwner>, s: SessionId)
    : (r: map<(SessionId, MonitorId, BufferIndex), BufferOwner>)
    ensures forall k :: k in r <==> k in owners && k.0 != s
    ensures forall k :: k in r ==> r[k] == owners[k]
  {
    map k | k in owners && k.0 != s :: owners[k]
  }

  /**
   * The server state after client `c`, bound to session `s`, disconnects: the client, the
   * session and everything kept for it go, the render layer is told, and if `s` was current
   * there is no current session any more and the awake set is recomputed.
   */
  ghost function Dropped(st: ServerState, c: ClientId, s: SessionId, now: int, renderAlive: bool): ServerState
  {
    var wasCurrent := st.currentSession == Some(s);
    var loading := st.loadingSessions - {s};
    var until := st.awakeUntil - {s};
    st.(connectedClients := st.connectedClients - {c},
        activeSessions := st.activeSessions - {s},
        loadingSessions := loading,
        awakeSessions := if wasCurrent then AwakeSet(None, loading, until, now) else st.awakeSessions - {s},
        awakeUntil := if wasCurrent then until - Expired(until, now) else until,
        pendingBufferRequests := Filter(st.pendingBufferRequests, (p: PendingBufferRequest) => p.client != c && p.session != s),
        bufferOwnership := OwnersWithout(st.bufferOwnership, s),
        currentSession := if wasCurrent then None else st.currentSession,
        renderCommands := st.renderCommands + (if renderAlive then [SessionRemoved(s)] else [])
          + (if wasCurrent && renderAlive then [SetActiveSession(None, None)] else []))
  }

  /** The server state after `disconnect_client(c)`: a client bound to a session takes it along. */
  ghost function Disconnected(st: ServerState, c: ClientId, now: int, renderAlive: bool): ServerState
  {
    if c !in st.connectedClients then st
    else if st.connectedClients[c].session.None? then st.(connectedClients := st.connectedClients - {c})
    else Dropped(st, c, st.connectedClients[c].session.value, now, renderAlive)
  }

  class ShiftServer {
    var currentSession: Option<SessionId>
    var pendingSessions: map<Token, PendingSession>
    var activeSessions: map<SessionId, Session>
    var loadingSessions: set<SessionId>
    var awakeSessions: set<SessionId>
    var awakeUntil: map<SessionId, int>
    var connectedClients: map<ClientId, ConnectedClient>
    /** Whether the render layer still receives commands. */
    const renderAlive: bool
    var renderCommands: seq<RenderCmd>
    var monitors: map<MonitorId, Monitor>
    var pendingBufferRequests: seq<PendingBufferRequest>
    var waitingFlip: seq<PendingFlip>
    var frontBuffers: map<(SessionId, MonitorId), BufferIndex>
    var bufferOwnership: map<(SessionId, MonitorId, BufferIndex), BufferOwner>
    var swapBuffersReceived: nat
    var frameDoneEmitted: nat
    var outbox: seq<Notice>

    ghost function State(): ServerState
      reads this
    {
      ServerState(currentSession, pendingSessions, activeSessions, loadingSessions, awakeSessions, awakeUntil,
                  connectedClients, renderCommands, monitors, pendingBufferRequests, waitingFlip, frontBuffers,
                  bufferOwnership, swapBuffersReceived, frameDoneEmitted, outbox)
    }

    /** Bookkeeping every handler keeps, even half-way through a disconnect. */
    ghost predicate Bookkeeping()
      reads this
    {
      && loadingSessions <= activeSessions.Keys
      && AtMostOneInflight(pendingBufferRequests)
      // nothing in the server ever records a pending flip or a front buffer
      && waitingFlip == []
      && frontBuffers == map[]
      && swapBuffersReceived <= U64_MAX
      && frameDoneEmitted <= U64_MAX
    }

    ghost predicate Valid()
      reads this
    {
      && Bookkeeping()
      && awakeUntil.Keys <= awakeSessions
      && (currentSession.Some? ==> currentSession.value in activeSessions && currentSession.value in awakeSessions)
    }

    /** `bind`: every table starts empty. */
    constructor (renderAlive: bool)
      ensures Valid()
      ensures this.renderAlive == renderAlive
      ensures State() == ServerState(None, map[], map[], {}, {}, map[], map[], [], map[], [], [], map[], map[], 0, 0, [])
    {
      this.renderAlive := renderAlive;
      currentSession := None;
      pendingSessions := map[];
      activeSessions := map[];
      loadingSessions := {};
      awakeSessions := {};
      awakeUntil := map[];
      connectedClients := map[];
      renderCommands := [];
      monitors := map[];
      pendingBufferRequests := [];
      waitingFlip := [];
      frontBuffers := map[];
      bufferOwnership := map[];
      swapBuffersReceived := 0;
      frameDoneEmitted := 0;
      outbox := [];
    }

    /** The session of the client's view, if it is still active. */
    function Requester(c: ClientId): Option<Session>
      reads this
    {
      if c in connectedClients && connectedClients[c].session.Some? && connectedClients[c].session.value in activeSessions
      then Some(activeSessions[connectedClients[c].session.value])
      else None
    }

    /** What a `notify_*` to client `c` appends: nothing when `c` is not connected. */
    ghost function Reply(c: ClientId, msg: S2CMsg): seq<Notice>
      reads this
    {
      if c in connectedClients then [Notice(c, msg)] else []
    }

    /** What sending `cmd` on the render channel records. */
    ghost function Sent(cmd: RenderCmd): seq<RenderCmd>
      reads this
    {
      if renderAlive then [cmd] else []
    }

    method NotifyClient(c: ClientId, msg: S2CMsg) returns (delivered: bool)
      modifies this
      ensures delivered <==> c in connectedClients && connectedClients[c].reachable
      ensures State() == old(State()).(outbox := old(outbox) + Reply(c, msg))
    {
      delivered := c in connectedClients && connectedClients[c].reachable;
      if c in connectedClients {
        outbox := outbox + [Notice(c, msg)];
      }
    }

    method SendRender(cmd: RenderCmd) returns (sent: bool)
      modifies this
      ensures sent == renderAlive
      ensures State() == old(State()).(renderCommands := old(renderCommands) + Sent(cmd))
    {
      sent := renderAlive;
      if renderAlive {
        renderCommands := renderCommands + [cmd];
      }
    }

    // -------------------------------------------------------------------------
    // Awake bookkeeping

    /**
     * `prune_expired_awake_sessions`: every deadline at or before `now` is dropped, and its
     * session goes to sleep unless it is the current one.
     */
    method PruneExpiredAwakeSessions(now: int)
      modifies this
      ensures awakeUntil == old(awakeUntil) - Expired(old(awakeUntil), now)
      ensures awakeSessions == old(awakeSessions) - (Expired(old(awakeUntil), now) - OptionSet(currentSession))
      ensures State() == old(State()).(awakeSessions := awakeSessions, awakeUntil := awakeUntil)
      ensures old(Valid()) ==> Valid()
    {
      var expired: set<SessionId> := {};
      var keys := awakeUntil.Keys;
      while keys != {}
        invariant keys <= awakeUntil.Keys
        invariant expired == Expired(awakeUntil, now) - keys
        decreases keys
      {
        var s :| s in keys;
        if awakeUntil[s] <= now {
          expired := expired + {s};
        }
        keys := keys - {s};
      }
      var todo := expired;
      while todo != {}
        invariant todo <= expired
        invariant awakeUntil == old(awakeUntil) - (expired - todo)
        invariant awakeSessions == old(awakeSessions) - ((expired - todo) - OptionSet(currentSession))
        invariant State() == old(State()).(awakeSessions := awakeSessions, awakeUntil := awakeUntil)
        decreases todo
      {
        var s :| s in todo;
        awakeUntil := awakeUntil - {s};
        if currentSession != Some(s) {
          awakeSessions := awakeSessions - {s};
        }
        todo := todo - {s};
      }
    }

    /**
     * `set_awake_sessions(next)`: the awake set becomes `next`, the loading sessions and the
     * sessions with a deadline still ahead; deadlines of sessions outside it are dropped.
     */
    method SetAwakeSessions(next: Option<SessionId>, now: int)
      modifies this
      ensures awakeSessions == AwakeSet(next, loadingSessions, old(awakeUntil), now)
      ensures awakeUntil.Keys == old(awakeUntil).Keys * awakeSessions
      ensures forall s :: s in awakeUntil ==> awakeUntil[s] == old(awakeUntil)[s]
      ensures awakeUntil == KeptDeadlines(old(awakeUntil), awakeSessions)
      ensures State() == old(State()).(awakeSessions := awakeSessions, awakeUntil := awakeUntil)
    {
      awakeSessions := OptionSet(next);
      var loading := loadingSessions;
      while loading != {}
        invariant loading <= loadingSessions
        invariant awakeSessions == OptionSet(next) + (loadingSessions - loading)
        invariant State() == old(State()).(awakeSessions := awakeSessions)
        decreases loading
      {
        var s :| s in loading;
        awakeSessions := awakeSessions + {s};
        loading := loading - {s};
      }
      var keys := awakeUntil.Keys;
      while keys != {}
        invariant keys <= awakeUntil.Keys
        invariant awakeSessions == OptionSet(next) + loadingSessions + (Unexpired(awakeUntil, now) - keys)
        invariant State() == old(State()).(awakeSessions := awakeSessions)
        decreases keys
      {
        var s :| s in keys;
        if awakeUntil[s] > now {
          awakeSessions := awakeSessions + {s};
        }
        keys := keys - {s};
      }
      awakeUntil := KeptDeadlines(awakeUntil, awakeSessions);
    }

    /** `keep_session_awake_for`: a positive duration wakes the session until `now + duration`. */
    method KeepSessionAwakeFor(s: SessionId, duration: nat, now: int)
      modifies this
      ensures duration == 0 ==> State() == old(State())
      ensures duration > 0 ==>
        State() == old(State()).(awakeSessions := old(awakeSessions) + {s}, awakeUntil := old(awakeUntil)[s := now + duration])
      ensures old(Valid()) ==> Valid()
    {
      if duration == 0 {
        return;
      }
      awakeSessions := awakeSessions + {s};
      awakeUntil := awakeUntil[s := now + duration];
    }

    /** Whether `s` survives a prune at `now`. */
    ghost function AwakeAfterPrune(s: SessionId, now: int): bool
      reads this
    {
      s in awakeSessions && (s in Expired(awakeUntil, now) ==> currentSession == Some(s))
    }

    /** `is_session_awake`: prunes first, then looks the session up. */
    method IsSessionAwake(s: SessionId, now: int) returns (awake: bool)
      modifies this
      ensures awake == old(AwakeAfterPrune(s, now))
      ensures awakeUntil == old(awakeUntil) - Expired(old(awakeUntil), now)
      ensures awakeSessions == old(awakeSessions) - (Expired(old(awakeUntil), now) - OptionSet(currentSession))
      ensures State() == old(State()).(awakeSessions := awakeSessions, awakeUntil := awakeUntil)
      ensures old(Valid()) ==> Valid()
    {
      PruneExpiredAwakeSessions(now);
      awake := s in awakeSessions;
    }

    /**
     * `update_active_session`: the current session becomes `next`, which is then awake,
     * and the render layer is told, with the transition if any.
     */
    method UpdateActiveSession(next: Option<SessionId>, transition: Option<SessionTransition>, now: int)
      requires Bookkeeping()
      requires next.Some? ==> next.value in activeSessions
      modifies this
      ensures Valid()
      ensures currentSession == next
      ensures awakeSessions == AwakeSet(next, loadingSessions, old(awakeUntil), now)
      ensures awakeUntil == old(awakeUntil) - Expired(old(awakeUntil), now)
      ensures State() == old(State()).(currentSession := next, awakeSessions := awakeSessions, awakeUntil := awakeUntil,
                                       renderCommands := old(renderCommands) + Sent(SetActiveSession(next, transition)))
    {
      currentSession := next;
      PruneExpiredAwakeSessions(now);
      ghost var pruned := awakeUntil;
      SetAwakeSessions(next, now);
      PruneThenSetKeepsUnexpired(next, loadingSessions, old(awakeUntil), now);
      assert awakeUntil == pruned;
      var _ := SendRender(SetActiveSession(next, transition));
    }

    // -------------------------------------------------------------------------
    // Clients

    /** `handle_accept`: a new client joins, not yet bound to a session. */
    method HandleAccept(c: ClientId)
      requires Valid()
      modifies this
      ensures Valid()
      ensures State() == old(State()).(connectedClients := old(connectedClients)[c := ConnectedClient(None, true)])
    {
      connectedClients := connectedClients[c := ConnectedClient(None, true)];
    }

    /** The session everything is dropped for when client `c` disconnects. */
    ghost function BoundSession(c: ClientId): Option<SessionId>
      reads this
    {
      if c in connectedClients then connectedClients[c].session else None
    }

    /** The part of `disconnect_client` that drops session `s` from the session tables. */
    method ForgetSession(s: SessionId)
      requires Bookkeeping()
      modifies this
      ensures Bookkeeping()
      ensures State() == old(State()).(activeSessions := old(activeSessions) - {s},
        loadingSessions := old(loadingSessions) - {s}, awakeSessions := old(awakeSessions) - {s},
        awakeUntil := old(awakeUntil) - {s})
    {
      activeSessions := activeSessions - {s};
      loadingSessions := loadingSessions - {s};
      awakeSessions := awakeSessions - {s};
      awakeUntil := awakeUntil - {s};
    }

    /**
     * The pending flips and front buffers of session `s` are dropped; as the server never
     * records any, this changes nothing.
     */
    method DropFlipsOf(s: SessionId)
      requires Bookkeeping()
      modifies this
      ensures State() == old(State())
    {
      waitingFlip := Filter(waitingFlip, (p: PendingFlip) => p.session != s);
      frontBuffers := frontBuffers - (set k | k in frontBuffers && k.0 == s);
    }

    /** The part of `disconnect_client` that drops the buffer bookkeeping of client `c` and session `s`. */
    method ForgetBuffers(c: ClientId, s: SessionId)
      requires Bookkeeping()
      modifies this
      ensures Bookkeeping()
      ensures pendingBufferRequests == Filter(old(pendingBufferRequests), (p: PendingBufferRequest) => p.client != c && p.session != s)
      ensures bufferOwnership == OwnersWithout(old(bufferOwnership), s)
      ensures State() == old(State()).(pendingBufferRequests := pendingBufferRequests, bufferOwnership := bufferOwnership)
    {
      FilterKeepsAtMostOneInflight(pendingBufferRequests, (p: PendingBufferRequest) => p.client != c && p.session != s);
      pendingBufferRequests := Filter(pendingBufferRequests, (p: PendingBufferRequest) => p.client != c && p.session != s);
      DropFlipsOf(s);
      bufferOwnership := OwnersWithout(bufferOwnership, s);
    }

    /**
     * `disconnect_client`: the client leaves; if it was bound to a session, that session and
     * everything kept for it goes too, the render layer is told, and if it was the current
     * session there is no current session any more.
     */
    method DisconnectClient(c: ClientId, now: int)
      requires Valid()
      modifies this
      ensures Valid()
      ensures connectedClients == old(connectedClients) - {c}
      ensures State() == Disconnected(old(State()), c, now, renderAlive)
      ensures c !in old(connectedClients) ==> State() == old(State())
      ensures old(BoundSession(c)).None? ==> State() == old(State()).(connectedClients := connectedClients)
      ensures old(BoundSession(c)).Some? ==> old(BoundSession(c)).value !in activeSessions
      ensures old(BoundSession(c)).Some? ==> old(BoundSession(c)).value !in awakeSessions
      ensures old(BoundSession(c)).Some? ==> activeSessions == old(activeSessions) - {old(BoundSession(c)).value}
      ensures old(BoundSession(c)).Some? ==>
        forall p :: p in pendingBufferRequests <==>
          p in old(pendingBufferRequests) && p.client != c && p.session != old(BoundSession(c)).value
      ensures old(BoundSession(c)).Some? ==>
        forall k :: k in bufferOwnership <==> k in old(bufferOwnership) && k.0 != old(BoundSession(c)).value
      ensures old(BoundSession(c)).Some? ==> loadingSessions == old(loadingSessions) - {old(BoundSession(c)).value}
      ensures old(BoundSession(c)).Some? ==> old(BoundSession(c)).value !in awakeUntil
      ensures old(BoundSession(c)).Some? ==>
        currentSession == (if old(currentSession) == old(BoundSession(c)) then None else old(currentSession))
      ensures old(BoundSession(c)).Some? ==>
        renderCommands == old(renderCommands) + Sent(SessionRemoved(old(BoundSession(c)).value))
          + (if old(currentSession) == old(BoundSession(c)) then Sent(SetActiveSession(None, None)) else [])
      ensures pendingSessions == old(pendingSessions) && monitors == old(monitors) && outbox == old(outbox)
      ensures swapBuffersReceived == old(swapBuffersReceived) && frameDoneEmitted == old(frameDoneEmitted)
    {
      if c !in connectedClients {
        return;
      }
      var client := connectedClients[c];
      connectedClients := connectedClients - {c};
      if client.session.None? {
        return;
      }
      var s := client.session.value;
      ForgetSession(s);
      ForgetBuffers(c, s);
      var _ := SendRender(SessionRemoved(s));
      if currentSession == Some(s) {
        UpdateActiveSession(None, None, now);
      }
    }

    // -------------------------------------------------------------------------
    // Client messages

    /**
     * `Auth`: an unknown token is answered with `NotFound` and changes nothing else.  A
     * known token is consumed, its pending session promoted and bound to the client; a
     * normal session starts loading (and so awake), and the first admin becomes current.
     */
    method HandleAuth(c: ClientId, token: Token, now: int)
      requires Valid()
      modifies this
      ensures Valid()
      ensures token !in old(pendingSessions) ==>
        State() == old(State()).(outbox := old(outbox) + old(Reply(c, AuthErrorMsg(NotFound))))
      ensures token in old(pendingSessions) ==> pendingSessions == old(pendingSessions) - {token}
      ensures token in old(pendingSessions) && c !in old(connectedClients) ==>
        State() == old(State()).(pendingSessions := pendingSessions)
      ensures token in old(pendingSessions) && c in old(connectedClients) && !old(connectedClients)[c].reachable ==>
        c !in connectedClients
      ensures token in old(pendingSessions) && c in old(connectedClients) && !old(connectedClients)[c].reachable ==>
        State() == Disconnected(old(State()).(pendingSessions := old(pendingSessions) - {token},
                                              outbox := old(outbox) + [Notice(c, BindToSession(Promote(old(pendingSessions)[token])))]),
                                c, now, renderAlive)
      ensures token in old(pendingSessions) && c in old(connectedClients) && old(connectedClients)[c].reachable ==>
        var s := Promote(old(pendingSessions)[token]);
        State() == Admitted(old(State()).(pendingSessions := old(pendingSessions) - {token},
                                          outbox := old(outbox) + [Notice(c, BindToSession(s))]), c, s, now, renderAlive)
      ensures token in old(pendingSessions) && c in old(connectedClients) && old(connectedClients)[c].reachable ==>
        var s := Promote(old(pendingSessions)[token]);
        && activeSessions == old(activeSessions)[s.id := s]
        && c in connectedClients && connectedClients[c].session == Some(s.id)
        && (s.role.Normal? ==> s.id in loadingSessions && s.id in awakeSessions)
        && currentSession == (if s.role.Admin? && old(currentSession).None? then Some(s.id) else old(currentSession))
        && old(outbox) + [Notice(c, BindToSession(s))] <= outbox
    {
      if token !in pendingSessions {
        var _ := NotifyClient(c, AuthErrorMsg(NotFound));
        return;
      }
      var pending := pendingSessions[token];
      pendingSessions := pendingSessions - {token};
      var session := Promote(pending);
      if c !in connectedClients {
        return;
      }
      var delivered := NotifyClient(c, BindToSession(session));
      if !delivered {
        DisconnectClient(c, now);
        return;
      }
      AdmitSession(c, session, now);
    }

    /**
     * The rest of `Auth` once the client has been told of its session: the session becomes
     * active, a loading one wakes up, the first admin becomes current, and the client learns
     * whether its session is awake and which one is current.
     */
    method AdmitSession(c: ClientId, session: Session, now: int)
      requires Valid()
      requires c in connectedClients
      modifies this
      ensures Valid()
      ensures activeSessions == old(activeSessions)[session.id := session]
      ensures c in connectedClients && connectedClients[c].session == Some(session.id)
      ensures session.role.Normal? && !session.ready ==> session.id in loadingSessions && session.id in awakeSessions
      ensures currentSession ==
        (if session.role.Admin? && old(currentSession).None? then Some(session.id) else old(currentSession))
      ensures State() == Admitted(old(State()), c, session, now, renderAlive)
    {
      RegisterSession(c, session);
      if session.role.Normal? && !session.ready {
        SetAwakeSessions(currentSession, now);
      }
      var firstAdmin := session.role.Admin? && currentSession.None?;
      if firstAdmin {
        UpdateActiveSession(Some(session.id), None, now);
      }
      ReportSessionState(c, session.id, firstAdmin);
    }

    /** The client is bound to the session, which becomes active (and loading, unless ready). */
    method RegisterSession(c: ClientId, session: Session)
      requires Valid() && c in connectedClients
      modifies this
      ensures Valid()
      ensures State() == old(State()).(
        connectedClients := old(connectedClients)[c := old(connectedClients)[c].(session := Some(session.id))],
        activeSessions := old(activeSessions)[session.id := session],
        loadingSessions := if session.role.Normal? && !session.ready then old(loadingSessions) + {session.id}
                           else old(loadingSessions))
    {
      connectedClients := connectedClients[c := connectedClients[c].(session := Some(session.id))];
      activeSessions := activeSessions[session.id := session];
      if session.role.Normal? && !session.ready {
        loadingSessions := loadingSessions + {session.id};
      }
    }

    /** What `ReportSessionState` tells client `c`, in order. */
    ghost function StateReport(c: ClientId, id: SessionId, becameCurrent: bool): seq<Notice>
      reads this
    {
      (if becameCurrent then [] else Reply(c, if id in awakeSessions then SessionAwake(id) else SessionSleep(id)))
      + (if currentSession.Some? then Reply(c, SessionActive(currentSession.value)) else [])
    }

    /**
     * The notices `Auth` ends with: whether session `id` is awake (unless it has just become
     * current), then which session is current.
     */
    method ReportSessionState(c: ClientId, id: SessionId, becameCurrent: bool)
      modifies this
      ensures State() == old(State()).(outbox := old(outbox) + old(StateReport(c, id, becameCurrent)))
    {
      if !becameCurrent {
        if id in awakeSessions {
          var _ := NotifyClient(c, SessionAwake(id));
        } else {
          var _ := NotifyClient(c, SessionSleep(id));
        }
      }
      if currentSession.Some? {
        var _ := NotifyClient(c, SessionActive(currentSession.value));
      }
    }

    /**
     * `CreateSession`: a client bound to an admin session gets a fresh pending session,
     * stored under its token; anyone else is answered `forbidden`.
     */
    method HandleCreateSession(c: ClientId, req: SessionCreatePayload, random: seq<Base64Url.byte>, id: SessionId, now: int)
      requires Valid()
      requires |random| == TOKEN_BYTES
      modifies this
      ensures Valid()
      ensures c !in old(connectedClients) ==> State() == old(State())
      ensures c in old(connectedClients) && CreateVerdict(old(Requester(c))).Reject? ==>
        State() == old(State()).(outbox := old(outbox) + [Notice(c, ErrorMsg("forbidden", false))])
      ensures c in old(connectedClients) && CreateVerdict(old(Requester(c))).Accept? ==>
        var created := NewPending(req.displayName, Roles.FromProtocol(req.role), random, id, now);
        && pendingSessions == old(pendingSessions)[created.0 := created.1]
        && outbox == old(outbox) + [Notice(c, SessionCreated(created.0, created.1))]
        && (old(connectedClients)[c].reachable ==>
              State() == old(State()).(pendingSessions := pendingSessions, outbox := outbox))
        && (!old(connectedClients)[c].reachable ==> c !in connectedClients)
      ensures c in old(connectedClients) && CreateVerdict(old(Requester(c))).Accept? && !old(connectedClients)[c].reachable ==>
        var created := NewPending(req.displayName, Roles.FromProtocol(req.role), random, id, now);
        State() == Disconnected(old(State()).(pendingSessions := old(pendingSessions)[created.0 := created.1],
                                              outbox := old(outbox) + [Notice(c, SessionCreated(created.0, created.1))]),
                                c, now, renderAlive)
    {
      if c !in connectedClients {
        return;
      }
      var verdict := CreateVerdict(Requester(c));
      if verdict.Reject? {
        var _ := NotifyClient(c, ErrorMsg("forbidden", false));
        return;
      }
      var created := NewPending(req.displayName, Roles.FromProtocol(req.role), random, id, now);
      pendingSessions := pendingSessions[created.0 := created.1];
      Tell(c, SessionCreated(created.0, created.1), now);
    }

    /** The checks of `SwitchSession`, on the current state. */
    function SwitchOutcome(c: ClientId, payload: SessionSwitchPayload): Verdict<SessionId>
      reads this
    {
      SwitchVerdict(ParseSessionId(payload.sessionId), c in connectedClients, Requester(c), activeSessions)
    }

    /**
     * `SwitchSession`: an admin makes a ready (or admin) session current.  With an
     * animation, the previous session is kept awake for the duration of the transition.
     */
    method HandleSwitchSession(c: ClientId, payload: SessionSwitchPayload, now: int)
      requires Valid()
      modifies this
      ensures Valid()
      ensures old(SwitchOutcome(c, payload)).Reject? ==>
        State() == old(State()).(outbox := old(outbox) + old(Reply(c, ErrorMsg(SwitchOutcome(c, payload).code, false))))
      ensures old(SwitchOutcome(c, payload)) == Ignore ==> State() == old(State())
      ensures old(SwitchOutcome(c, payload)).Accept? ==>
        var target := old(SwitchOutcome(c, payload)).value;
        var transition := SwitchTransition(old(currentSession), target, payload);
        && currentSession == Some(target) && target in awakeSessions
        && renderCommands == old(renderCommands) + Sent(SetActiveSession(Some(target), transition))
        && (transition.Some? ==>
              transition.value.fromSession in awakeSessions && transition.value.fromSession in awakeUntil
              && awakeUntil[transition.value.fromSession] == now + payload.duration)
        && outbox == old(outbox) && activeSessions == old(activeSessions) && pendingSessions == old(pendingSessions)
      ensures old(SwitchOutcome(c, payload)).Accept? ==>
        var target := old(SwitchOutcome(c, payload)).value;
        var transition := SwitchTransition(old(currentSession), target, payload);
        var until := if transition.Some? && payload.duration > 0
                     then old(awakeUntil)[transition.value.fromSession := now + payload.duration] else old(awakeUntil);
        State() == old(State()).(currentSession := Some(target),
                                 awakeSessions := AwakeSet(Some(target), old(loadingSessions), until, now),
                                 awakeUntil := until - Expired(until, now),
                                 renderCommands := renderCommands)
    {
      var verdict := SwitchOutcome(c, payload);
      match verdict
      case Reject(code) =>
        var _ := NotifyClient(c, ErrorMsg(code, false));
      case Ignore =>
      case Accept(target) =>
        SwitchTo(target, SwitchTransition(currentSession, target, payload), now);
    }

    /**
     * The accepted part of `SwitchSession`: the session a transition leaves is kept awake
     * for its duration, then `target` becomes current.
     */
    method SwitchTo(target: SessionId, transition: Option<SessionTransition>, now: int)
      requires Valid()
      requires target in activeSessions
      modifies this
      ensures Valid()
      ensures currentSession == Some(target) && target in awakeSessions
      ensures transition.Some? && transition.value.duration > 0 ==>
        transition.value.fromSession in awakeSessions && transition.value.fromSession in awakeUntil
        && awakeUntil[transition.value.fromSession] == now + transition.value.duration
      ensures var until := if transition.Some? && transition.value.duration > 0
                           then old(awakeUntil)[transition.value.fromSession := now + transition.value.duration]
                           else old(awakeUntil);
        State() == old(State()).(currentSession := Some(target),
                                 awakeSessions := AwakeSet(Some(target), old(loadingSessions), until, now),
                                 awakeUntil := until - Expired(until, now),
                                 renderCommands := old(renderCommands) + Sent(SetActiveSession(Some(target), transition)))
    {
      if transition.Some? {
        KeepSessionAwakeFor(transition.value.fromSession, transition.value.duration, now);
      }
      UpdateActiveSession(Some(target), transition, now);
    }

    /**
     * `SessionReady`: a loading normal session that names itself becomes ready, leaves the
     * loading set and so stays awake only if it is current or kept awake.
     */
    method HandleSessionReady(c: ClientId, payload: SessionReadyPayload, now: int)
      requires Valid()
      modifies this
      ensures Valid()
      ensures c !in old(connectedClients) ==> State() == old(State())
      ensures c in old(connectedClients) ==>
        var verdict := ReadyVerdict(old(connectedClients)[c].session, payload.sessionId, old(activeSessions));
        && (verdict.Reject? ==> State() == old(State()).(outbox := old(outbox) + [Notice(c, ErrorMsg(verdict.code, false))]))
        && (verdict == Ignore ==> State() == old(State()))
        && (verdict.Accept? ==>
              && activeSessions == old(activeSessions)[verdict.value := WithReady(old(activeSessions)[verdict.value], true)]
              && loadingSessions == old(loadingSessions) - {verdict.value}
              && awakeSessions == AwakeSet(currentSession, loadingSessions, old(awakeUntil), now)
              && currentSession == old(currentSession) && outbox == old(outbox)
              && State() == old(State()).(activeSessions := activeSessions, loadingSessions := loadingSessions,
                                          awakeSessions := awakeSessions,
                                          awakeUntil := KeptDeadlines(old(awakeUntil), awakeSessions)))
    {
      if c !in connectedClients {
        return;
      }
      var verdict := ReadyVerdict(connectedClients[c].session, payload.sessionId, activeSessions);
      match verdict
      case Reject(code) =>
        var _ := NotifyClient(c, ErrorMsg(code, false));
      case Ignore =>
      case Accept(id) =>
        activeSessions := activeSessions[id := WithReady(activeSessions[id], true)];
        loadingSessions := loadingSessions - {id};
        SetAwakeSessions(currentSession, now);
    }

    /** Who owns buffer `b` of session `s` on monitor `m`: the client unless recorded otherwise. */
    function OwnerOf(s: SessionId, m: MonitorId, b: BufferIndex): BufferOwner
      reads this
    {
      if (s, m, b) in bufferOwnership then bufferOwnership[(s, m, b)] else Client
    }

    /**
     * `BufferRequest`: the request is forwarded to the render layer and recorded as in
     * flight only when the requester's session is awake, the buffer is client-owned, and no
     * other request is in flight for that session and monitor; otherwise the client gets
     * the error code of the first check that failed.
     */
    method HandleBufferRequest(c: ClientId, monitor: MonitorId, buffer: BufferIndex, fence: Option<Fence>, now: int)
      requires Valid()
      modifies this
      ensures Valid()
      ensures old(Requester(c)).None? ==>
        State() == old(State()).(outbox := old(outbox) + old(Reply(c, ErrorMsg("forbidden", false))))
      ensures old(Requester(c)).Some? ==>
        var s := old(Requester(c)).value.id;
        var verdict := BufferVerdict(old(Requester(c)), old(AwakeAfterPrune(s, now)), old(OwnerOf(s, monitor, buffer)),
                                     (s, monitor) in InflightKeys(old(pendingBufferRequests)), renderAlive);
        && awakeUntil == old(awakeUntil) - Expired(old(awakeUntil), now)
        && (verdict.Accept? ==>
              && pendingBufferRequests == old(pendingBufferRequests) + [PendingBufferRequest(c, s, monitor, buffer)]
              && renderCommands == old(renderCommands) + [SwapBuffers(monitor, buffer, s, fence)]
              && outbox == old(outbox))
        && (verdict.Reject? ==>
              && pendingBufferRequests == old(pendingBufferRequests)
              && renderCommands == old(renderCommands)
              && outbox == old(outbox) + [Notice(c, ErrorMsg(verdict.code, verdict.code == "render_unavailable"))])
      ensures old(Requester(c)).Some? ==>
        State() == old(State()).(awakeSessions := old(awakeSessions) - (Expired(old(awakeUntil), now) - OptionSet(old(currentSession))),
                                 awakeUntil := old(awakeUntil) - Expired(old(awakeUntil), now),
                                 pendingBufferRequests := pendingBufferRequests, renderCommands := renderCommands,
                                 outbox := outbox)
    {
      var requester := Requester(c);
      if requester.None? {
        var _ := NotifyClient(c, ErrorMsg("forbidden", false));
        return;
      }
      var s := requester.value.id;
      var awake := IsSessionAwake(s, now);
      if !awake {
        var _ := NotifyClient(c, ErrorMsg("session_sleeping", false));
        return;
      }
      if OwnerOf(s, monitor, buffer) != Client {
        var _ := NotifyClient(c, ErrorMsg("ownership_violation", false));
        return;
      }
      if (s, monitor) in InflightKeys(pendingBufferRequests) {
        var _ := NotifyClient(c, ErrorMsg("buffer_request_inflight", false));
        return;
      }
      var sent := SendRender(SwapBuffers(monitor, buffer, s, fence));
      if !sent {
        var _ := NotifyClient(c, ErrorMsg("render_unavailable", true));
      } else {
        var request := PendingBufferRequest(c, s, monitor, buffer);
        AppendKeepsAtMostOneInflight(pendingBufferRequests, request);
        pendingBufferRequests := pendingBufferRequests + [request];
      }
    }

    /**
     * After a framebuffer link for session `s` on monitor `m`: whatever was in flight or
     * waiting for that pair is forgotten and both buffers belong to the client again.
     */
    method ResetLinkedBuffers(s: SessionId, m: MonitorId)
      requires Valid()
      modifies this
      ensures Valid()
      ensures pendingBufferRequests == Filter(old(pendingBufferRequests), (p: PendingBufferRequest) => !(p.session == s && p.monitor == m))
      ensures (s, m) !in InflightKeys(pendingBufferRequests)
      ensures bufferOwnership == old(bufferOwnership)[(s, m, Zero) := Client][(s, m, One) := Client]
      ensures State() == old(State()).(pendingBufferRequests := pendingBufferRequests, bufferOwnership := bufferOwnership)
    {
      DropFlipState(s, m);
      var keep := (p: PendingBufferRequest) => !(p.session == s && p.monitor == m);
      FilterKeepsAtMostOneInflight(pendingBufferRequests, keep);
      FilterDropsKey(pendingBufferRequests, keep, (s, m));
      pendingBufferRequests := Filter(pendingBufferRequests, keep);
      bufferOwnership := bufferOwnership[(s, m, Zero) := Client][(s, m, One) := Client];
    }

    /** The flip queue and front-buffer entries of (session, monitor) go; both are always empty. */
    method DropFlipState(s: SessionId, m: MonitorId)
      requires Valid()
      modifies this
      ensures Valid()
      ensures State() == old(State())
    {
      waitingFlip := Filter(waitingFlip, (p: PendingFlip) => !(p.session == s && p.monitor == m));
      frontBuffers := frontBuffers - {(s, m)};
    }

    /**
     * `FramebufferLink`: the link is forwarded to the render layer for the client's
     * session; once forwarded, a well-formed monitor id resets that monitor's buffers.
     */
    method HandleFramebufferLink(c: ClientId, link: FramebufferLinkPayload, dmaBufs: seq<Fence>)
      requires Valid()
      modifies this
      ensures Valid()
      ensures c !in old(connectedClients) ==> State() == old(State())
      ensures c in old(connectedClients) && old(BoundSession(c)).None? ==>
        State() == old(State()).(outbox := old(outbox) + [Notice(c, ErrorMsg("forbidden", false))])
      ensures old(BoundSession(c)).Some? && !renderAlive ==>
        State() == old(State()).(outbox := old(outbox) + [Notice(c, ErrorMsg("render_unavailable", true))])
      ensures old(BoundSession(c)).Some? && renderAlive ==>
        var s := old(BoundSession(c)).value;
        && renderCommands == old(renderCommands) + [FramebufferLinkCmd(link, dmaBufs, s)]
        && (ParseMonitorId(link.monitorId).Ok? ==>
              var m := ParseMonitorId(link.monitorId).value;
              && (s, m) !in InflightKeys(pendingBufferRequests)
              && pendingBufferRequests ==
                   Filter(old(pendingBufferRequests), (p: PendingBufferRequest) => !(p.session == s && p.monitor == m))
              && bufferOwnership == old(bufferOwnership)[(s, m, Zero) := Client][(s, m, One) := Client]
              && State() == old(State()).(renderCommands := renderCommands, pendingBufferRequests := pendingBufferRequests,
                                          bufferOwnership := bufferOwnership))
        && (ParseMonitorId(link.monitorId).Err? ==>
              State() == old(State()).(renderCommands := renderCommands))
    {
      if c !in connectedClients {
        return;
      }
      if connectedClients[c].session.None? {
        var _ := NotifyClient(c, ErrorMsg("forbidden", false));
        return;
      }
      var s := connectedClients[c].session.value;
      var sent := SendRender(FramebufferLinkCmd(link, dmaBufs, s));
      if !sent {
        var _ := NotifyClient(c, ErrorMsg("render_unavailable", true));
        return;
      }
      var parsed := ParseMonitorId(link.monitorId);
      if parsed.Err? {
        return;
      }
      ResetLinkedBuffers(s, parsed.value);
    }

    /** `handle_client_message`: each message goes to its handler; `Shutdown` disconnects. */
    method HandleClientMessage(c: ClientId, msg: C2SMsg, random: seq<Base64Url.byte>, id: SessionId, now: int)
      requires Valid()
      requires |random| == TOKEN_BYTES
      modifies this
      ensures Valid()
      ensures msg.Shutdown? ==> c !in connectedClients
    {
      match msg
      case Shutdown => DisconnectClient(c, now);
      case Auth(token) => HandleAuth(c, token, now);
      case CreateSession(req) => HandleCreateSession(c, req, random, id, now);
      case SwitchSession(payload) => HandleSwitchSession(c, payload, now);
      case SessionReady(payload) => HandleSessionReady(c, payload, now);
      case BufferRequest(monitor, buffer, fence) => HandleBufferRequest(c, monitor, buffer, fence, now);
      case FramebufferLink(link, dmaBufs) => HandleFramebufferLink(c, link, dmaBufs);
    }

    // -------------------------------------------------------------------------
    // Render events

    /** `MonitorOffline`: the monitor and every request, flip and buffer record on it go. */
    method HandleMonitorOffline(m: MonitorId)
      requires Valid()
      modifies this
      ensures Valid()
      ensures monitors == old(monitors) - {m}
      ensures forall p :: p in pendingBufferRequests <==> p in old(pendingBufferRequests) && p.monitor != m
      ensures forall k :: k in bufferOwnership <==> k in old(bufferOwnership) && k.1 != m
      ensures forall k :: k in bufferOwnership ==> bufferOwnership[k] == old(bufferOwnership)[k]
      ensures State() == old(State()).(monitors := monitors, pendingBufferRequests := pendingBufferRequests,
                                       bufferOwnership := bufferOwnership)
    {
      DropFlipsOn(m);
      var keep := (p: PendingBufferRequest) => p.monitor != m;
      FilterKeepsAtMostOneInflight(pendingBufferRequests, keep);
      SetMonitorTables(monitors - {m}, Filter(pendingBufferRequests, keep),
                       map k | k in bufferOwnership && k.1 != m :: bufferOwnership[k]);
    }

    /** Replaces the monitor table, the in-flight requests and the buffer owners at once. */
    method SetMonitorTables(ms: map<MonitorId, Monitor>, pending: seq<PendingBufferRequest>,
                            owners: map<(SessionId, MonitorId, BufferIndex), BufferOwner>)
      requires Valid() && AtMostOneInflight(pending)
      modifies this
      ensures Valid()
      ensures State() == old(State()).(monitors := ms, pendingBufferRequests := pending, bufferOwnership := owners)
    {
      monitors := ms;
      pendingBufferRequests := pending;
      bufferOwnership := owners;
    }

    /** The pending flips and front buffers on monitor `m` are dropped: never any, as above. */
    method DropFlipsOn(m: MonitorId)
      requires Bookkeeping()
      modifies this
      ensures State() == old(State())
    {
      waitingFlip := Filter(waitingFlip, (p: PendingFlip) => p.monitor != m);
      frontBuffers := frontBuffers - (set k | k in frontBuffers && k.1 == m);
    }

    /**
     * `BufferRequestAck`: the matching in-flight request is answered; shift owns the buffer
     * from now on and the requesting client is told, or dropped if it cannot be told.
     */
    method HandleBufferRequestAck(s: SessionId, m: MonitorId, b: BufferIndex, now: int)
      requires Valid()
      modifies this
      ensures Valid()
      ensures FindRequest(old(pendingBufferRequests), s, m, b).None? ==> State() == old(State())
      ensures FindRequest(old(pendingBufferRequests), s, m, b).Some? ==>
        var pending := old(pendingBufferRequests)[FindRequest(old(pendingBufferRequests), s, m, b).value];
        && (s, m) !in InflightKeys(pendingBufferRequests)
        && swapBuffersReceived == SaturatingInc(old(swapBuffersReceived))
        && (pending.client in old(connectedClients) && !old(connectedClients)[pending.client].reachable ==>
              pending.client !in connectedClients)
      ensures FindRequest(old(pendingBufferRequests), s, m, b).Some? ==>
        var k := FindRequest(old(pendingBufferRequests), s, m, b).value;
        var client := old(pendingBufferRequests)[k].client;
        var answered := old(State()).(pendingBufferRequests := RemoveAt(old(pendingBufferRequests), k),
                                      bufferOwnership := old(bufferOwnership)[(s, m, b) := Shift],
                                      swapBuffersReceived := SaturatingInc(old(swapBuffersReceived)),
                                      outbox := old(outbox) + old(Reply(client, BufferRequestAckMsg(m, b))));
        && (client !in old(connectedClients) || old(connectedClients)[client].reachable ==> State() == answered)
        && (client in old(connectedClients) && !old(connectedClients)[client].reachable ==>
              State() == Disconnected(answered, client, now, renderAlive))
    {
      var pos := FindRequest(pendingBufferRequests, s, m, b);
      if pos.None? {
        return;
      }
      var pending := pendingBufferRequests[pos.value];
      TakeAckedRequest(s, m, b, pos.value);
      if pending.client in connectedClients {
        Tell(pending.client, BufferRequestAckMsg(m, b), now);
      }
    }

    /** The acknowledged request at position `k` leaves the queue and shift takes the buffer. */
    method TakeAckedRequest(s: SessionId, m: MonitorId, b: BufferIndex, k: nat)
      requires Valid()
      requires FindRequest(pendingBufferRequests, s, m, b) == Some(k)
      modifies this
      ensures Valid()
      ensures (s, m) !in InflightKeys(pendingBufferRequests)
      ensures State() == old(State()).(pendingBufferRequests := RemoveAt(old(pendingBufferRequests), k),
                                       bufferOwnership := old(bufferOwnership)[(s, m, b) := Shift],
                                       swapBuffersReceived := SaturatingInc(old(swapBuffersReceived)))
    {
      RemoveAtKeepsAtMostOneInflight(pendingBufferRequests, k);
      RemovingFoundRequestLeavesNone(pendingBufferRequests, s, m, b);
      pendingBufferRequests := RemoveAt(pendingBufferRequests, k);
      bufferOwnership := bufferOwnership[(s, m, b) := Shift];
      swapBuffersReceived := SaturatingInc(swapBuffersReceived);
    }

    /** Notifies client `c`; a connected client that cannot be reached is disconnected. */
    method Tell(c: ClientId, msg: S2CMsg, now: int)
      requires Valid()
      modifies this
      ensures Valid()
      ensures c !in old(connectedClients) || old(connectedClients)[c].reachable ==>
        State() == old(State()).(outbox := old(outbox) + old(Reply(c, msg)))
      ensures c in old(connectedClients) && !old(connectedClients)[c].reachable ==>
        State() == Disconnected(old(State()).(outbox := old(outbox) + [Notice(c, msg)]), c, now, renderAlive)
    {
      var delivered := NotifyClient(c, msg);
      if !delivered && c in connectedClients {
        DisconnectClient(c, now);
      }
    }

    /** `BufferRequestRejected`: the matching in-flight request is dropped and its client told. */
    method HandleBufferRequestRejected(s: SessionId, m: MonitorId, b: BufferIndex)
      requires Valid()
      modifies this
      ensures Valid()
      ensures FindRequest(old(pendingBufferRequests), s, m, b).None? ==> State() == old(State())
      ensures FindRequest(old(pendingBufferRequests), s, m, b).Some? ==>
        var k := FindRequest(old(pendingBufferRequests), s, m, b).value;
        && pendingBufferRequests == RemoveAt(old(pendingBufferRequests), k)
        && (s, m) !in InflightKeys(pendingBufferRequests)
        && State() == old(State()).(pendingBufferRequests := pendingBufferRequests,
             outbox := old(outbox) + old(Reply(pendingBufferRequests[k].client, ErrorMsg("buffer_request_rejected", false))))
    {
      var pos := FindRequest(pendingBufferRequests, s, m, b);
      if pos.None? {
        return;
      }
      var pending := pendingBufferRequests[pos.value];
      RemoveAtKeepsAtMostOneInflight(pendingBufferRequests, pos.value);
      RemovingFoundRequestLeavesNone(pendingBufferRequests, s, m, b);
      pendingBufferRequests := RemoveAt(pendingBufferRequests, pos.value);
      var _ := NotifyClient(pending.client, ErrorMsg("buffer_request_rejected", false));
    }

    /**
     * `BufferConsumed`: the buffer is the client's again, and some client bound to the
     * session is sent the release; a delivered release counts as a frame done.
     */
    method HandleBufferConsumed(s: SessionId, m: MonitorId, b: BufferIndex, fence: Option<Fence>)
      requires Valid()
      modifies this
      ensures Valid()
      ensures bufferOwnership == old(bufferOwnership)[(s, m, b) := Client]
      ensures (forall k :: k in old(connectedClients) ==> old(connectedClients)[k].session != Some(s)) ==>
        State() == old(State()).(bufferOwnership := bufferOwnership)
      ensures |outbox| <= |old(outbox)| + 1
      ensures (exists k :: k in old(connectedClients) && old(connectedClients)[k].session == Some(s)) ==>
        |outbox| == |old(outbox)| + 1
      ensures |outbox| == |old(outbox)| + 1 ==>
        var n := outbox[|old(outbox)|];
        && n.to in connectedClients && connectedClients[n.to].session == Some(s)
        && n.msg == BufferReleaseMsg(m, b, fence)
        && frameDoneEmitted == (if connectedClients[n.to].reachable then SaturatingInc(old(frameDoneEmitted)) else old(frameDoneEmitted))
      ensures State() == old(State()).(bufferOwnership := bufferOwnership, outbox := outbox, frameDoneEmitted := frameDoneEmitted)
    {
      bufferOwnership := bufferOwnership[(s, m, b) := Client];
      if k :| k in connectedClients && connectedClients[k].session == Some(s) {
        var delivered := NotifyClient(k, BufferReleaseMsg(m, b, fence));
        if delivered {
          frameDoneEmitted := SaturatingInc(frameDoneEmitted);
        }
      }
    }

    /** `handle_render_event`. */
    method HandleRenderEvent(evt: RenderEvt, now: int)
      requires Valid()
      modifies this
      ensures Valid()
      ensures evt.Started? ==> monitors == MonitorMap(evt.monitors)
      ensures evt.MonitorOnline? ==> monitors == old(monitors)[evt.monitor.id := evt.monitor]
      ensures evt.FatalError? || evt.PageFlip? ==> State() == old(State())
    {
      match evt
      case Started(ms) => monitors := MonitorMap(ms);
      case MonitorOnline(monitor) => monitors := monitors[monitor.id := monitor];
      case MonitorOffline(m) => HandleMonitorOffline(m);
      case BufferRequestAck(s, m, b) => HandleBufferRequestAck(s, m, b, now);
      case BufferRequestRejected(s, m, b, _) => HandleBufferRequestRejected(s, m, b);
      case BufferConsumed(s, m, b, fence) => HandleBufferConsumed(s, m, b, fence);
      case FatalError(_) =>
      case PageFlip(_) =>
    }

    // -------------------------------------------------------------------------
    // The main loop's timer

    /** The once-a-second tick of `start`: expired sessions are pruned and the counters reset. */
    method StatsTick(now: int)
      requires Valid()
      modifies this
      ensures Valid()
      ensures awakeUntil == old(awakeUntil) - Expired(old(awakeUntil), now)
      ensures State() == old(State()).(awakeSessions := awakeSessions, awakeUntil := awakeUntil,
                                       swapBuffersReceived := 0, frameDoneEmitted := 0)
    {
      PruneExpiredAwakeSessions(now);
      swapBuffersReceived := 0;
      frameDoneEmitted := 0;
    }
  }
}
