/**
 * Pure bookkeeping used by the server layer (shift/src/server_layer/server.rs): the awake
 * set, the in-flight buffer requests, and the admission decisions taken by the message
 * handlers before they change any state.
 */
module ServerSupport {
  import opened Wrappers
  import opened Ids
  import Roles
  import opened Sessions
  import opened Comms
  import opened Seqs

  type ClientId = nat

  /** Who may write into a client buffer: the client, or shift while it scans it out. */
  datatype BufferOwner = Client | Shift

  datatype PendingBufferRequest = PendingBufferRequest(client: ClientId, session: SessionId, monitor: MonitorId, buffer: BufferIndex)

  datatype PendingFlip = PendingFlip(session: SessionId, monitor: MonitorId, buffer: BufferIndex)

  // ---------------------------------------------------------------------------
  // Awake sessions

  function OptionSet(o: Option<SessionId>): set<SessionId>
  {
    if o.Some? then {o.value} else {}
  }

  /** Sessions whose keep-awake deadline lies after `now`. */
  function Unexpired(until: map<SessionId, int>, now: int): set<SessionId>
  {
    set s | s in until && until[s] > now
  }

  /** Sessions whose keep-awake deadline is `now` or earlier. */
  function Expired(until: map<SessionId, int>, now: int): set<SessionId>
  {
    set s | s in until && until[s] <= now
  }

  /** The awake set `set_awake_sessions(next)` establishes: next, loading, and kept awake. */
  function AwakeSet(next: Option<SessionId>, loading: set<SessionId>, until: map<SessionId, int>, now: int): set<SessionId>
  {
    OptionSet(next) + loading + Unexpired(until, now)
  }

  /** The keep-awake deadlines `set_awake_sessions` keeps: those of sessions still awake. */
  function KeptDeadlines(until: map<SessionId, int>, awake: set<SessionId>): (r: map<SessionId, int>)
    ensures r.Keys == until.Keys * awake
    ensures forall s :: s in r ==> r[s] == until[s]
  {
    map s | s in until && s in awake :: until[s]
  }

  /**
   * A session is asleep after `set_awake_sessions` exactly when it is not the next current
   * session, not loading, and has no deadline still ahead.
   */
  lemma AsleepAfterSet(next: Option<SessionId>, loading: set<SessionId>, until: map<SessionId, int>, now: int, s: SessionId)
    ensures s !in AwakeSet(next, loading, until, now) <==>
      next != Some(s) && s !in loading && (s in until ==> until[s] <= now)
  {
  }

  /** Pruning first and then setting the awake set keeps exactly the unexpired deadlines. */
  lemma PruneThenSetKeepsUnexpired(next: Option<SessionId>, loading: set<SessionId>, until: map<SessionId, int>, now: int)
    ensures Unexpired(until - Expired(until, now), now) == Unexpired(until, now)
    ensures var pruned := until - Expired(until, now);
      (map s | s in pruned && s in AwakeSet(next, loading, pruned, now) :: pruned[s]) == pruned
  {
  }

  // ---------------------------------------------------------------------------
  // In-flight buffer requests: at most one per (session, monitor)

  function InflightKey(p: PendingBufferRequest): (SessionId, MonitorId)
  {
    (p.session, p.monitor)
  }

  function InflightKeys(s: seq<PendingBufferRequest>): set<(SessionId, MonitorId)>
  {
    set p | p in s :: InflightKey(p)
  }

  predicate AtMostOneInflight(s: seq<PendingBufferRequest>)
  {
    forall i, j :: 0 <= i < j < |s| ==> InflightKey(s[i]) != InflightKey(s[j])
  }

  lemma AtMostOneInflightCons(p: PendingBufferRequest, t: seq<PendingBufferRequest>)
    ensures AtMostOneInflight([p] + t) <==> InflightKey(p) !in InflightKeys(t) && AtMostOneInflight(t)
  {
    var s := [p] + t;
    if AtMostOneInflight(s) {
      forall i, j | 0 <= i < j < |t| ensures InflightKey(t[i]) != InflightKey(t[j]) {
        assert s[i + 1] == t[i] && s[j + 1] == t[j];
      }
      forall q | q in t ensures InflightKey(q) != InflightKey(p) {
        var k :| 0 <= k < |t| && t[k] == q;
        assert s[0] == p && s[k + 1] == q;
      }
    }
    if InflightKey(p) !in InflightKeys(t) && AtMostOneInflight(t) {
      forall i, j | 0 <= i < j < |s| ensures InflightKey(s[i]) != InflightKey(s[j]) {
        if i == 0 {
          assert s[j] == t[j - 1] && s[j] in t;
          assert InflightKey(s[j]) in InflightKeys(t);
        } else {
          assert s[i] == t[i - 1] && s[j] == t[j - 1];
        }
      }
      assert AtMostOneInflight(s);
    }
  }

  /** Dropping requests never creates a second request for the same (session, monitor). */
  lemma {:induction false} FilterKeepsAtMostOneInflight(s: seq<PendingBufferRequest>, keep: PendingBufferRequest -> bool)
    requires AtMostOneInflight(s)
    ensures AtMostOneInflight(Filter(s, keep))
    decreases |s|
  {
    if s != [] {
      assert s == [s[0]] + s[1..];
      AtMostOneInflightCons(s[0], s[1..]);
      FilterKeepsAtMostOneInflight(s[1..], keep);
      var rest := Filter(s[1..], keep);
      assert InflightKeys(rest) <= InflightKeys(s[1..]);
      if keep(s[0]) {
        AtMostOneInflightCons(s[0], rest);
      } else {
        assert Filter(s, keep) == rest;
      }
    }
  }

  /** After dropping every request for (session, monitor), none of them is in flight. */
  lemma FilterDropsKey(s: seq<PendingBufferRequest>, keep: PendingBufferRequest -> bool, key: (SessionId, MonitorId))
    requires forall p :: keep(p) ==> InflightKey(p) != key
    ensures key !in InflightKeys(Filter(s, keep))
  {
    forall p | p in Filter(s, keep)
      ensures InflightKey(p) != key
    {
    }
  }

  /** Appending a request whose (session, monitor) has none in flight keeps at most one each. */
  lemma AppendKeepsAtMostOneInflight(s: seq<PendingBufferRequest>, p: PendingBufferRequest)
    requires AtMostOneInflight(s) && InflightKey(p) !in InflightKeys(s)
    ensures AtMostOneInflight(s + [p])
  {
    var r := s + [p];
    forall i, j | 0 <= i < j < |r| ensures InflightKey(r[i]) != InflightKey(r[j]) {
      if j == |s| {
        assert r[i] == s[i] && r[i] in s;
      } else {
        assert r[i] == s[i] && r[j] == s[j];
      }
    }
  }

  /** Removing one request keeps at most one per (session, monitor). */
  lemma RemoveAtKeepsAtMostOneInflight(s: seq<PendingBufferRequest>, k: nat)
    requires AtMostOneInflight(s) && k < |s|
    ensures AtMostOneInflight(RemoveAt(s, k))
  {
    var r := RemoveAt(s, k);
    forall i, j | 0 <= i < j < |r| ensures InflightKey(r[i]) != InflightKey(r[j]) {
      var i' := if i < k then i else i + 1;
      var j' := if j < k then j else j + 1;
      assert r[i] == s[i'] && r[j] == s[j'];
    }
  }

  /** `iter().position(..)` for the request matching (session, monitor, buffer): the first one. */
  function FindRequest(s: seq<PendingBufferRequest>, session: SessionId, monitor: MonitorId, buffer: BufferIndex)
    : (r: Option<nat>)
    ensures r.Some? ==> r.value < |s| && s[r.value].session == session && s[r.value].monitor == monitor && s[r.value].buffer == buffer
    ensures r.Some? ==> forall i :: 0 <= i < r.value ==> !(s[i].session == session && s[i].monitor == monitor && s[i].buffer == buffer)
    ensures r.None? <==> forall i :: 0 <= i < |s| ==> !(s[i].session == session && s[i].monitor == monitor && s[i].buffer == buffer)
  {
    if s == [] then None
    else if s[0].session == session && s[0].monitor == monitor && s[0].buffer == buffer then Some(0)
    else match FindRequest(s[1..], session, monitor, buffer)
      case None => None
      case Some(i) => Some(i + 1)
  }

  /** With at most one request per (session, monitor), removing the match removes every match. */
  lemma RemovingFoundRequestLeavesNone(s: seq<PendingBufferRequest>, session: SessionId, monitor: MonitorId, buffer: BufferIndex)
    requires AtMostOneInflight(s)
    requires FindRequest(s, session, monitor, buffer).Some?
    ensures (session, monitor) !in InflightKeys(RemoveAt(s, FindRequest(s, session, monitor, buffer).value))
  {
    var k := FindRequest(s, session, monitor, buffer).value;
    var r := RemoveAt(s, k);
    forall q | q in r ensures InflightKey(q) != (session, monitor) {
      var i :| 0 <= i < |r| && r[i] == q;
      var i' := if i < k then i else i + 1;
      assert r[i] == s[i'];
    }
  }

  // ---------------------------------------------------------------------------
  // Admission decisions of the client-message handlers

  /** The outcome of a handler's checks: go ahead, answer with an error code, or say nothing. */
  datatype Verdict<T> = Accept(value: T) | Reject(code: string) | Ignore

  /** CreateSession: only a client bound to a live admin session may create sessions. */
  function CreateVerdict(requester: Option<Session>): (v: Verdict<Roles.Role>)
    ensures v.Accept? <==> requester.Some? && requester.value.role == Roles.Role.Admin
    ensures !v.Accept? ==> v == Reject("forbidden")
  {
    if requester.None? || requester.value.role != Roles.Role.Admin then Reject("forbidden")
    else Accept(requester.value.role)
  }

  /**
   * SwitchSession.  The target id is parsed before anything else, so a malformed id is
   * reported as such even to an unauthenticated or unknown client.
   */
  function SwitchVerdict(target: Result<SessionId, IdParseError>, known: bool, requester: Option<Session>,
                         active: map<SessionId, Session>): (v: Verdict<SessionId>)
    ensures target.Err? <==> v == Reject("invalid_session_id")
    ensures v.Accept? <==>
      target.Ok? && known && requester.Some? && requester.value.role == Roles.Role.Admin
      && target.value in active && (active[target.value].role == Roles.Role.Admin || active[target.value].ready)
    ensures v.Accept? ==> v.value == target.value
    ensures v == Ignore <==> target.Ok? && !known
    ensures target.Ok? && known && (requester.None? || requester.value.role != Roles.Role.Admin) ==>
      v == Reject("forbidden")
    ensures (target.Ok? && known && requester.Some? && requester.value.role == Roles.Role.Admin
             && target.value !in active) ==> v == Reject("unknown_session")
    ensures (target.Ok? && known && requester.Some? && requester.value.role == Roles.Role.Admin
             && target.value in active && active[target.value].role == Roles.Role.Normal
             && !active[target.value].ready) ==> v == Reject("session_loading")
  {
    if target.Err? then Reject("invalid_session_id")
    else if !known then Ignore
    else if requester.None? then Reject("forbidden")
    else if requester.value.role != Roles.Role.Admin then Reject("forbidden")
    else if target.value !in active then Reject("unknown_session")
    else if active[target.value].role != Roles.Role.Admin && !active[target.value].ready then Reject("session_loading")
    else Accept(target.value)
  }

  /**
   * The transition a switch carries: only when there was a different current session, an
   * animation was named and the duration is positive.
   */
  function SwitchTransition(previous: Option<SessionId>, target: SessionId, payload: SessionSwitchPayload)
    : (t: Option<SessionTransition>)
    ensures t.Some? <==> previous.Some? && payload.animation.Some? && previous.value != target && payload.duration > 0
    ensures t.Some? ==>
      t.value.fromSession == previous.value && t.value.duration == payload.duration
      && t.value.duration > 0 && t.value.fromSession != target
  {
    if previous.Some? && payload.animation.Some? && previous.value != target && payload.duration > 0 then
      Some(SessionTransition(previous.value, payload.animation.value, payload.duration))
    else None
  }

  /**
   * SessionReady.  The claimed id is compared as text with the displayed id of the
   * requester's own session; only a loading normal session can become ready, and a ready
   * one is left alone silently.
   */
  function ReadyVerdict(bound: Option<SessionId>, claimed: string, active: map<SessionId, Session>): (v: Verdict<SessionId>)
    ensures v.Accept? <==>
      bound.Some? && claimed == SessionIdString(bound.value) && bound.value in active
      && active[bound.value].role.Normal? && !active[bound.value].ready
    ensures v.Accept? ==> v.value == bound.value
    ensures v == Ignore <==>
      bound.Some? && claimed == SessionIdString(bound.value) && bound.value in active
      && active[bound.value].role.Normal? && active[bound.value].ready
    ensures bound.None? ==> v == Reject("forbidden")
    ensures bound.Some? && claimed != SessionIdString(bound.value) ==> v == Reject("invalid_session_id")
    ensures bound.Some? && claimed == SessionIdString(bound.value) && bound.value !in active ==>
      v == Reject("forbidden")
    ensures (bound.Some? && claimed == SessionIdString(bound.value) && bound.value in active
             && active[bound.value].role.Admin?) ==> v == Reject("invalid_transition")
  {
    if bound.None? then Reject("forbidden")
    else if claimed != SessionIdString(bound.value) then Reject("invalid_session_id")
    else if bound.value !in active then Reject("forbidden")
    else
      var existing := active[bound.value];
      if existing.role.Admin? then Reject("invalid_transition")
      else if existing.ready then Ignore
      else Accept(bound.value)
  }

  /**
   * BufferRequest, after the requester's session has been found: the session must be
   * awake, the buffer client-owned, no request may be in flight for the same monitor, and
   * the renderer must still take commands.
   */
  function BufferVerdict(requester: Option<Session>, awake: bool, owner: BufferOwner, inflight: bool, renderAlive: bool)
    : (v: Verdict<SessionId>)
    ensures v.Accept? <==> requester.Some? && awake && owner == Client && !inflight && renderAlive
    ensures v.Accept? ==> v.value == requester.value.id
    ensures v != Ignore
    ensures requester.None? ==> v == Reject("forbidden")
    ensures requester.Some? && !awake ==> v == Reject("session_sleeping")
    ensures requester.Some? && awake && owner != Client ==> v == Reject("ownership_violation")
    ensures requester.Some? && awake && owner == Client && inflight ==> v == Reject("buffer_request_inflight")
    ensures v == Reject("render_unavailable") <==> requester.Some? && awake && owner == Client && !inflight && !renderAlive
  {
    if requester.None? then Reject("forbidden")
    else if !awake then Reject("session_sleeping")
    else if owner != Client then Reject("ownership_violation")
    else if inflight then Reject("buffer_request_inflight")
    else if !renderAlive then Reject("render_unavailable")
    else Accept(requester.value.id)
  }

  /**
   * SessionReady compares text, not ids: a client that names its own session in a
   * non-canonical spelling which SwitchSession would accept is refused.
   */
  lemma ReadyRefusesNonCanonicalSpelling(active: map<SessionId, Session>)
    ensures ReadyVerdict(Some(SessionId(10)), "se_+0A", active) == Reject("invalid_session_id")
    ensures ParseSessionId("se_+0A") == Ok(SessionId(10))
  {
    ParseAcceptsNonCanonicalText();
  }
}
