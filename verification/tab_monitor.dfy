/**
 * A monitor as the tab protocol server library keeps it (tab-server/src/monitor.rs): per
 * session, an output with two linked buffers, the buffer on screen, a queue of buffers
 * submitted while a page flip was still pending, and an optional cursor.
 *
 * Instants are numbers on one clock, passed in as `now`.  The monitor description and the
 * texture type are left abstract (type parameters).
 */
module TabMonitor {
  import opened Wrappers
  import opened Comms

  /** A cursor image with its hot spot and position; the image hash is not modelled. */
  datatype Cursor = Cursor(
    width: nat, height: nat, hotX: int, hotY: int, image: seq<bv8>,
    positionX: int, positionY: int)

  /** `Cursor::new`: the given image and hot spot, positioned at the origin. */
  function NewCursor(width: nat, height: nat, hotX: int, hotY: int, image: seq<bv8>): (c: Cursor)
    ensures c.positionX == 0 && c.positionY == 0
    ensures c.width == width && c.height == height && c.hotX == hotX && c.hotY == hotY && c.image == image
  {
    Cursor(width, height, hotX, hotY, image, 0, 0)
  }

  /** One buffer waiting for its page flip, with the instant it was submitted. */
  datatype Queued = Queued(buffer: BufferIndex, submitted: int)

  datatype Output<Texture> = Output(
    buffers: (Texture, Texture),
    current: Option<BufferIndex>,
    queue: seq<Queued>,
    pendingPageFlip: bool,
    currentSwapStarted: Option<int>,
    cursor: Option<Cursor>)

  /** The output of a freshly linked pair of buffers: nothing shown, queued or pending. */
  function LinkedOutput<Texture>(buffers: (Texture, Texture)): Output<Texture>
  {
    Output(buffers, None, [], false, None, None)
  }

  /**
   * A queued buffer implies a pending flip, a pending flip shows a buffer, and exactly a
   * pending flip has a start instant.
   */
  predicate OutputValid<Texture>(o: Output<Texture>)
  {
    && (o.queue != [] ==> o.pendingPageFlip)
    && (o.pendingPageFlip ==> o.current.Some?)
    && (o.currentSwapStarted.Some? <==> o.pendingPageFlip)
  }

  function QueuedBuffers(q: seq<Queued>): (bs: seq<BufferIndex>)
    ensures |bs| == |q| && forall i :: 0 <= i < |q| ==> bs[i] == q[i].buffer
  {
    seq(|q|, i requires 0 <= i < |q| => q[i].buffer)
  }

  /**
   * The buffers submitted but not yet released by a page flip, oldest first: the one on
   * screen while its flip is pending, then the queue.
   */
  ghost function InFlight<Texture>(o: Output<Texture>): seq<BufferIndex>
    requires OutputValid(o)
  {
    if o.pendingPageFlip then [o.current.value] + QueuedBuffers(o.queue) else []
  }

  /**
   * An output once its pending flip completed: the next queued buffer, if any, goes on
   * screen with its own flip pending.
   */
  function AfterFlip<Texture>(o: Output<Texture>): (r: Output<Texture>)
    requires OutputValid(o) && o.pendingPageFlip
    ensures OutputValid(r)
    ensures InFlight(r) == InFlight(o)[1..]
    ensures r.pendingPageFlip ==> r.current == Some(InFlight(o)[1])
    ensures !r.pendingPageFlip ==> r.current == o.current
    ensures r.pendingPageFlip ==> r.currentSwapStarted == Some(o.queue[0].submitted) && r.queue == o.queue[1..]
    ensures r.buffers == o.buffers && r.cursor == o.cursor
  {
    var idle := o.(pendingPageFlip := false, currentSwapStarted := None);
    if o.queue == [] then idle
    else
      assert QueuedBuffers(o.queue[1..]) == QueuedBuffers(o.queue)[1..];
      idle.(queue := o.queue[1..], current := Some(o.queue[0].buffer),
            currentSwapStarted := Some(o.queue[0].submitted), pendingPageFlip := true)
  }

  /** `current_texture`: the linked buffer the output shows, if any. */
  function CurrentTexture<Texture>(o: Output<Texture>): (t: Option<Texture>)
    ensures t.None? <==> o.current.None?
    ensures o.current == Some(BufferIndex.Zero) ==> t == Some(o.buffers.0)
    ensures o.current == Some(BufferIndex.One) ==> t == Some(o.buffers.1)
  {
    match o.current
    case None => None
    case Some(Zero) => Some(o.buffers.0)
    case Some(One) => Some(o.buffers.1)
  }

  /** Time since `start`, never negative (`Instant::elapsed`). */
  function Since(start: int, now: int): nat
  {
    if now > start then now - start else 0
  }

  class Monitor<Info, Texture> {
    var info: Info
    var outputs: map<string, Output<Texture>>

    ghost predicate Valid()
      reads this
    {
      forall s :: s in outputs ==> OutputValid(outputs[s])
    }

    /** `Monitor::new`: no session has linked buffers yet. */
    constructor (info: Info)
      ensures Valid() && this.info == info && outputs == map[]
    {
      this.info := info;
      outputs := map[];
    }

    method UpdateInfo(info: Info)
      modifies this
      ensures this.info == info && outputs == old(outputs)
    {
      this.info := info;
    }

    /** `framebuffer_link`: the session's output is (re)created empty, replacing any earlier one. */
    method FramebufferLink(session: string, buffers: (Texture, Texture))
      requires Valid()
      modifies this
      ensures Valid()
      ensures outputs == old(outputs)[session := LinkedOutput(buffers)]
      ensures InFlight(outputs[session]) == []
      ensures info == old(info)
    {
      outputs := outputs[session := LinkedOutput(buffers)];
    }

    /**
     * `swap_buffers`: false for a session without an output.  On an idle output the buffer
     * goes on screen at once and waits for its flip; otherwise it joins the queue.  Either
     * way it becomes the newest buffer in flight and nothing else of the output changes.
     */
    method SwapBuffers(session: string, buffer: BufferIndex, now: int) returns (ok: bool)
      requires Valid()
      modifies this
      ensures Valid()
      ensures ok <==> session in old(outputs)
      ensures !ok ==> outputs == old(outputs)
      ensures ok ==>
        && outputs.Keys == old(outputs).Keys
        && (forall s :: s in outputs && s != session ==> outputs[s] == old(outputs)[s])
        && InFlight(outputs[session]) == InFlight(old(outputs)[session]) + [buffer]
        && outputs[session].buffers == old(outputs)[session].buffers
        && outputs[session].cursor == old(outputs)[session].cursor
      ensures ok && InFlight(old(outputs)[session]) == [] ==>
        outputs == old(outputs)[session := old(outputs)[session].(current := Some(buffer), currentSwapStarted := Some(now),
                                                                  pendingPageFlip := true)]
      ensures ok && InFlight(old(outputs)[session]) != [] ==>
        outputs == old(outputs)[session := old(outputs)[session].(queue := old(outputs)[session].queue + [Queued(buffer, now)])]
      ensures info == old(info)
    {
      if session !in outputs {
        return false;
      }
      var o := outputs[session];
      if !o.pendingPageFlip && o.queue == [] {
        o := o.(current := Some(buffer), currentSwapStarted := Some(now), pendingPageFlip := true);
      } else {
        o := o.(queue := o.queue + [Queued(buffer, now)]);
        assert QueuedBuffers(o.queue) == QueuedBuffers(outputs[session].queue) + [buffer];
      }
      outputs := outputs[session := o];
      ok := true;
    }

    /** `current_buffer_for_session`: the texture the session's output shows. */
    function CurrentBufferForSession(session: string): (t: Option<Texture>)
      reads this
      ensures t.Some? <==> session in outputs && outputs[session].current.Some?
      ensures t.Some? ==> t == CurrentTexture(outputs[session])
    {
      if session in outputs then CurrentTexture(outputs[session]) else None
    }

    /** `remove_session`: the output is dropped and the texture it showed handed back. */
    method RemoveSession(session: string) returns (t: Option<Texture>)
      requires Valid()
      modifies this
      ensures Valid()
      ensures outputs == old(outputs) - {session}
      ensures t == old(CurrentBufferForSession(session))
      ensures info == old(info)
    {
      if session !in outputs {
        return None;
      }
      t := CurrentTexture(outputs[session]);
      outputs := outputs - {session};
    }

    /**
     * `take_pending_page_flip`: for an output with a pending flip, the flip completes: the
     * oldest buffer in flight is released, the next queued one (if any) goes on screen and
     * waits for its own flip, and the answer is how long the completed flip took.  Without
     * an output or a pending flip the answer is `None` and nothing changes.
     */
    method TakePendingPageFlip(session: string, now: int) returns (latency: Option<nat>)
      requires Valid()
      modifies this
      ensures Valid()
      ensures latency.Some? <==> session in old(outputs) && old(outputs)[session].pendingPageFlip
      ensures latency.None? ==> outputs == old(outputs)
      ensures latency.Some? ==>
        && outputs.Keys == old(outputs).Keys
        && (forall s :: s in outputs && s != session ==> outputs[s] == old(outputs)[s])
        && InFlight(outputs[session]) == InFlight(old(outputs)[session])[1..]
        && (outputs[session].pendingPageFlip ==> outputs[session].current == Some(InFlight(old(outputs)[session])[1]))
        && (!outputs[session].pendingPageFlip ==> outputs[session].current == old(outputs)[session].current)
        && latency.value == Since(old(outputs)[session].currentSwapStarted.value, now)
        && outputs[session].buffers == old(outputs)[session].buffers
        && outputs[session].cursor == old(outputs)[session].cursor
      ensures latency.Some? ==> outputs == old(outputs)[session := AfterFlip(old(outputs)[session])]
      ensures info == old(info)
    {
      if session !in outputs {
        return None;
      }
      var o := outputs[session];
      if !o.pendingPageFlip {
        return None;
      }
      latency := Some(Since(o.currentSwapStarted.value, now));
      outputs := outputs[session := AfterFlip(o)];
    }

    /** `set_cursor`: false for a session without an output. */
    method SetCursor(session: string, cursor: Cursor) returns (ok: bool)
      requires Valid()
      modifies this
      ensures Valid()
      ensures ok <==> session in old(outputs)
      ensures ok ==> outputs == old(outputs)[session := old(outputs)[session].(cursor := Some(cursor))]
      ensures !ok ==> outputs == old(outputs)
      ensures info == old(info)
    {
      if session !in outputs {
        return false;
      }
      outputs := outputs[session := outputs[session].(cursor := Some(cursor))];
      ok := true;
    }

    /** `move_cursor`: only the position of an existing cursor changes. */
    method MoveCursor(session: string, x: int, y: int)
      requires Valid()
      modifies this
      ensures Valid()
      ensures session in old(outputs) && old(outputs)[session].cursor.Some? ==>
        outputs == old(outputs)[session :=
          old(outputs)[session].(cursor := Some(old(outputs)[session].cursor.value.(positionX := x, positionY := y)))]
      ensures !(session in old(outputs) && old(outputs)[session].cursor.Some?) ==> outputs == old(outputs)
      ensures info == old(info)
    {
      if session !in outputs {
        return;
      }
      var o := outputs[session];
      if o.cursor.Some? {
        outputs := outputs[session := o.(cursor := Some(o.cursor.value.(positionX := x, positionY := y)))];
      }
    }

    /** `clear_cursor`: the session's output no longer has a cursor. */
    method ClearCursor(session: string)
      requires Valid()
      modifies this
      ensures Valid()
      ensures session in old(outputs) ==> outputs == old(outputs)[session := old(outputs)[session].(cursor := None)]
      ensures session !in old(outputs) ==> outputs == old(outputs)
      ensures info == old(info)
    {
      if session !in outputs {
        return;
      }
      outputs := outputs[session := outputs[session].(cursor := None)];
    }

    /** `get_cursor`. */
    function GetCursor(session: string): (c: Option<Cursor>)
      reads this
      ensures c.Some? <==> session in outputs && outputs[session].cursor.Some?
      ensures c.Some? ==> c == outputs[session].cursor
    {
      if session in outputs then outputs[session].cursor else None
    }
  }
}
