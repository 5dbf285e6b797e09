/**
 * Sessions (shift/src/sessions/session.rs) and sessions waiting for their client
 * (shift/src/sessions/pending_sessions.rs).  A pending session is created together with a
 * fresh token; the client that later authenticates with that token promotes it into a
 * live session.
 */
module Sessions {
  import opened Wrappers
  import Roles
  import opened Ids
  import opened Tokens
  import Base64Url

  datatype Session = Session(id: SessionId, role: Roles.Role, ready: bool, displayName: string)

  /** `with_ready`: a copy of the session with only its readiness changed. */
  function WithReady(s: Session, ready: bool): (r: Session)
    ensures r.ready == ready
    ensures r.id == s.id && r.role == s.role && r.displayName == s.displayName
  {
    s.(ready := ready)
  }

  /** `created_at` is a reading of the wall clock, kept as a number. */
  datatype PendingSession = PendingSession(id: SessionId, role: Roles.Role, createdAt: int, displayName: Option<string>)

  /**
   * `PendingSession::new`: the token's bytes, the random id and the clock reading are
   * inputs (the source draws them from the operating system and panics if the random
   * source fails).
   */
  function NewPending(displayName: Option<string>, role: Roles.Role, random: seq<Base64Url.byte>, id: SessionId, now: int)
    : (r: (Token, PendingSession))
    requires |random| == TOKEN_BYTES
    ensures |r.0.bytes| == TOKEN_BYTES
    ensures r.1.id == id && r.1.role == role && r.1.displayName == displayName && r.1.createdAt == now
  {
    var t := Generate(TOKEN_BYTES, Some(random));
    (t.value, PendingSession(id, role, now, displayName))
  }

  /** `PendingSession::admin`. */
  function NewAdmin(displayName: Option<string>, random: seq<Base64Url.byte>, id: SessionId, now: int)
    : (r: (Token, PendingSession))
    requires |random| == TOKEN_BYTES
    ensures r.1.role == Roles.Role.Admin && r.1.id == id
  {
    NewPending(displayName, Roles.Role.Admin, random, id, now)
  }

  /** `PendingSession::normal`. */
  function NewNormal(displayName: Option<string>, random: seq<Base64Url.byte>, id: SessionId, now: int)
    : (r: (Token, PendingSession))
    requires |random| == TOKEN_BYTES
    ensures r.1.role == Roles.Role.Normal && r.1.id == id
  {
    NewPending(displayName, Roles.Role.Normal, random, id, now)
  }

  const DEFAULT_NAME_PREFIX: string := "Session: "

  /** `default_session_name`: "Session: " followed by the displayed id. */
  function DefaultSessionName(p: PendingSession): string
  {
    DEFAULT_NAME_PREFIX + SessionIdString(p.id)
  }

  /**
   * `promote`: the live session keeps the id and role; only an admin session is ready at
   * once, and a missing display name is replaced by the default name.
   */
  function Promote(p: PendingSession): (s: Session)
    ensures s.id == p.id && s.role == p.role
    ensures s.ready <==> p.role == Roles.Role.Admin
    ensures p.displayName.Some? ==> s.displayName == p.displayName.value
    ensures p.displayName.None? ==> s.displayName == DefaultSessionName(p)
  {
    Session(p.id, p.role, p.role == Roles.Role.Admin,
      match p.displayName
      case Some(name) => name
      case None => DefaultSessionName(p))
  }

  /** The default name identifies its session: the text after "Session: " parses back to the id. */
  lemma DefaultNameIdentifiesSession(p: PendingSession)
    ensures DEFAULT_NAME_PREFIX <= DefaultSessionName(p)
    ensures ParseSessionId(DefaultSessionName(p)[|DEFAULT_NAME_PREFIX|..]) == Ok(p.id)
  {
    assert DefaultSessionName(p)[|DEFAULT_NAME_PREFIX|..] == SessionIdString(p.id);
    SessionIdRoundTrip(p.id);
  }

  /** Two pending sessions with different ids get different default names. */
  lemma DefaultNamesDistinct(p: PendingSession, q: PendingSession)
    requires p.id != q.id
    ensures DefaultSessionName(p) != DefaultSessionName(q)
  {
    if DefaultSessionName(p) == DefaultSessionName(q) {
      DefaultNameIdentifiesSession(p);
      DefaultNameIdentifiesSession(q);
    }
  }
}
