/**
 * The frame reassembly of a tab protocol connection (tab-server/src/connection.rs): bytes
 * read from the socket accumulate in `buffer`, file descriptors received with them wait in
 * `pendingFds`, and the frame parser (which is not part of this model and is passed in as
 * `parser`) is asked for a complete frame.
 *
 * What a `recvmsg` call returned is a parameter.  Descriptors are numbers; besides the
 * connection's own fields, ghost logs record every descriptor received, handed to the
 * parser, closed, or dropped without being closed.
 */
module TabConnectionModel {
  import opened Wrappers

  datatype ProtocolError =
    | UnexpectedEof
    | Truncated
    | InvalidPayload(reason: string)
    | Nix(errno: int)
    /** An error reported by the frame parser. */
    | Parser(code: nat)

  /** What `parse_from_bytes` answers: a frame and the bytes it used, not enough bytes yet, or an error. */
  datatype ParseOutcome<Frame> =
    | Parsed(frame: Frame, consumed: nat)
    | Incomplete
    | ParseFailed(error: ProtocolError)

  /** What one `recvmsg` call returned. */
  datatype RecvOutcome =
    | WouldBlock
    | RecvFailed(errno: int)
    | Received(bytes: seq<bv8>, truncated: bool, fds: seq<int>)

  type Parser<Frame> = (seq<bv8>, seq<int>) -> ParseOutcome<Frame>

  /** The parser never claims to have used more bytes than it was given. */
  predicate ParserFits<Frame>(parser: Parser<Frame>, bytes: seq<bv8>, fds: seq<int>)
  {
    parser(bytes, fds).Parsed? ==> parser(bytes, fds).consumed <= |bytes|
  }

  /**
   * What parsing a non-empty buffer `all` with descriptors `fds` leaves: the answer, the
   * buffer (the used bytes gone after a frame) and the pending descriptors (put back only
   * when the frame is incomplete).
   */
  function AfterParse<Frame>(parser: Parser<Frame>, all: seq<bv8>, fds: seq<int>)
    : (r: (Result<Option<Frame>, ProtocolError>, seq<bv8>, seq<int>))
    requires ParserFits(parser, all, fds)
    ensures r.2 == [] || r.2 == fds
  {
    match parser(all, fds)
    case Parsed(frame, consumed) =>
      assert all == all[..consumed] + all[consumed..];
      (Ok(Some(frame)), all[consumed..], [])
    case Incomplete => (Ok(None), all, fds)
    case ParseFailed(e) => (Err(e), all, [])
  }

  class TabConnection<Frame> {
    var buffer: seq<bv8>
    var pendingFds: seq<int>
    ghost var received: seq<int>
    ghost var handed: seq<int>
    ghost var closed: seq<int>
    ghost var dropped: seq<int>

    /** Every descriptor received is still pending, went to the parser, was closed, or was dropped. */
    ghost predicate Valid()
      reads this
    {
      multiset(received) == multiset(pendingFds) + multiset(handed) + multiset(closed) + multiset(dropped)
    }

    /** `TabConnection::new`, without the socket set-up. */
    constructor ()
      ensures Valid() && buffer == [] && pendingFds == [] && received == []
    {
      buffer := [];
      pendingFds := [];
      received := [];
      handed := [];
      closed := [];
      dropped := [];
    }

    /**
     * `try_parse_buffer`.  An empty buffer answers `None` at once.  Otherwise the pending
     * descriptors are handed to the parser with the buffer: a parsed frame removes exactly
     * the bytes it used from the front of the buffer and keeps the descriptors; an
     * incomplete frame leaves the buffer alone and puts the descriptors back; a parser
     * error is passed on, and the descriptors it was given are no longer pending.
     */
    method TryParseBuffer(parser: Parser<Frame>) returns (r: Result<Option<Frame>, ProtocolError>)
      requires Valid()
      requires ParserFits(parser, buffer, pendingFds)
      modifies this
      ensures Valid() && received == old(received) && closed == old(closed)
      ensures old(buffer) == [] ==> r == Ok(None) && buffer == old(buffer) && pendingFds == old(pendingFds)
      ensures old(buffer) != [] ==> match parser(old(buffer), old(pendingFds))
        case Parsed(frame, consumed) =>
          && r == Ok(Some(frame)) && buffer == old(buffer)[consumed..]
          && old(buffer) == old(buffer)[..consumed] + buffer
          && pendingFds == [] && handed == old(handed) + old(pendingFds)
        case Incomplete =>
          r == Ok(None) && buffer == old(buffer) && pendingFds == old(pendingFds)
        case ParseFailed(e) =>
          && r == Err(e) && buffer == old(buffer) && pendingFds == []
          && dropped == old(dropped) + old(pendingFds)
    {
      if buffer == [] {
        return Ok(None);
      }
      var fds := pendingFds;
      pendingFds := [];
      var outcome := parser(buffer, fds);
      match outcome
      case ParseFailed(e) =>
        dropped := dropped + fds;
        r := Err(e);
      case Parsed(frame, consumed) =>
        handed := handed + fds;
        assert buffer == buffer[..consumed] + buffer[consumed..];
        buffer := buffer[consumed..];
        r := Ok(Some(frame));
      case Incomplete =>
        if fds != [] {
          pendingFds := fds;
        }
        r := Ok(None);
    }

    /**
     * The bookkeeping of `recv_frame` after one `recvmsg`.  Nothing to read answers `None`;
     * a failed read, a zero-byte read (end of stream) and a truncated read are errors, and
     * anything else goes to `AcceptRead`.
     */
    method RecvFrame(outcome: RecvOutcome, parser: Parser<Frame>) returns (r: Result<Option<Frame>, ProtocolError>)
      requires Valid()
      requires outcome.Received? ==>
        ParserFits(parser, buffer + outcome.bytes, if outcome.fds != [] then outcome.fds else pendingFds)
      modifies this
      ensures Valid()
      ensures outcome.WouldBlock? ==> r == Ok(None) && buffer == old(buffer) && pendingFds == old(pendingFds)
      ensures outcome.RecvFailed? ==> r == Err(Nix(outcome.errno)) && buffer == old(buffer) && pendingFds == old(pendingFds)
      ensures outcome.Received? && outcome.bytes == [] ==>
        && r == Err(UnexpectedEof) && buffer == old(buffer) && pendingFds == old(pendingFds)
        && dropped == old(dropped) + outcome.fds && closed == old(closed)
      ensures outcome.Received? && outcome.bytes != [] && outcome.truncated ==>
        && r == Err(Truncated) && buffer == old(buffer) && pendingFds == old(pendingFds)
        && dropped == old(dropped) + outcome.fds && closed == old(closed)
      ensures outcome.Received? && outcome.bytes != [] && !outcome.truncated && outcome.fds != [] && old(pendingFds) != [] ==>
        && r.Err? && r.error.InvalidPayload?
        && closed == old(closed) + outcome.fds
        && buffer == old(buffer) && pendingFds == old(pendingFds)
      ensures outcome.Received? && outcome.bytes != [] && !outcome.truncated && !(outcome.fds != [] && old(pendingFds) != []) ==>
        (r, buffer, pendingFds) ==
          AfterParse(parser, old(buffer) + outcome.bytes, if outcome.fds != [] then outcome.fds else old(pendingFds))
      ensures received == old(received) + (if outcome.Received? then outcome.fds else [])
    {
      match outcome
      case WouldBlock =>
        return Ok(None);
      case RecvFailed(errno) =>
        return Err(Nix(errno));
      case Received(bytes, truncated, fds) =>
        if bytes == [] {
          received := received + fds;
          dropped := dropped + fds;
          return Err(UnexpectedEof);
        }
        if truncated {
          received := received + fds;
          dropped := dropped + fds;
          return Err(Truncated);
        }
        r := AcceptRead(bytes, fds, parser);
    }

    /**
     * The rest of `recv_frame` for a read of `bytes` with descriptors `fds`.  Descriptors
     * that arrive while earlier ones are still pending are closed and the read is refused;
     * otherwise they become pending, the bytes are appended to the buffer and a frame is
     * parsed from the whole buffer.
     */
    method AcceptRead(bytes: seq<bv8>, fds: seq<int>, parser: Parser<Frame>) returns (r: Result<Option<Frame>, ProtocolError>)
      requires Valid()
      requires bytes != []
      requires ParserFits(parser, buffer + bytes, if fds != [] then fds else pendingFds)
      modifies this
      ensures Valid()
      ensures received == old(received) + fds
      ensures fds != [] && old(pendingFds) != [] ==>
        && r.Err? && r.error.InvalidPayload?
        && closed == old(closed) + fds
        && buffer == old(buffer) && pendingFds == old(pendingFds)
      ensures !(fds != [] && old(pendingFds) != []) ==>
        (r, buffer, pendingFds) == AfterParse(parser, old(buffer) + bytes, if fds != [] then fds else old(pendingFds))
    {
      if fds != [] && pendingFds != [] {
        r := RefuseFds(fds);
        return;
      }
      received := received + fds;
      if fds != [] {
        pendingFds := fds;
      }
      r := AppendAndParse(bytes, parser);
    }

    /** Descriptors that arrive while earlier ones are pending are closed, and the read refused. */
    method RefuseFds(fds: seq<int>) returns (r: Result<Option<Frame>, ProtocolError>)
      requires Valid()
      modifies this
      ensures Valid()
      ensures r.Err? && r.error.InvalidPayload?
      ensures received == old(received) + fds && closed == old(closed) + fds
      ensures buffer == old(buffer) && pendingFds == old(pendingFds)
    {
      received := received + fds;
      closed := closed + fds;
      r := Err(InvalidPayload("received file descriptors for a frame while previous frame is incomplete"));
    }

    /** The end of `recv_frame`: the bytes join the buffer and a frame is parsed from it. */
    method AppendAndParse(bytes: seq<bv8>, parser: Parser<Frame>) returns (r: Result<Option<Frame>, ProtocolError>)
      requires Valid()
      requires bytes != []
      requires ParserFits(parser, buffer + bytes, pendingFds)
      modifies this
      ensures Valid() && received == old(received) && closed == old(closed)
      ensures (r, buffer, pendingFds) == AfterParse(parser, old(buffer) + bytes, old(pendingFds))
    {
      buffer := buffer + bytes;
      r := TryParseBuffer(parser);
    }

    /** `Drop`: every pending descriptor is closed. */
    method Close()
      requires Valid()
      modifies this
      ensures Valid()
      ensures pendingFds == [] && closed == old(closed) + old(pendingFds)
      ensures buffer == old(buffer)
    {
      closed := closed + pendingFds;
      pendingFds := [];
    }
  }
}
