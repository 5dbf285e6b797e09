/**
 * The renderer's session-switch transition (`ActiveTransition` in
 * shift/src/rendering_layer/mod.rs).  Instants and durations are numbers on one clock;
 * the source's floating-point ratio is an exact `real` here.
 */
module Transition {
  import opened Wrappers
  import opened Ids
  import opened Comms

  datatype ActiveTransition = ActiveTransition(
    fromSession: SessionId,
    toSession: SessionId,
    animation: string,
    startedAt: int,
    duration: nat)

  /**
   * `ActiveTransition::from_cmd`: a zero-length transition is no transition; any other
   * starts at `now` and keeps the command's sessions, animation and duration.
   */
  function FromCmd(to: SessionId, t: SessionTransition, now: int): (r: Option<ActiveTransition>)
    ensures r.None? <==> t.duration == 0
    ensures r.Some? ==>
      && r.value.fromSession == t.fromSession && r.value.toSession == to
      && r.value.animation == t.animation && r.value.duration == t.duration
      && r.value.startedAt == now
  {
    if t.duration == 0 then None
    else Some(ActiveTransition(t.fromSession, to, t.animation, now, t.duration))
  }

  /** The time since the start, never negative (`saturating_duration_since`). */
  function Elapsed(t: ActiveTransition, now: int): nat
  {
    if now > t.startedAt then now - t.startedAt else 0
  }

  /**
   * `progress`: the elapsed fraction of the duration clamped to [0, 1], and 1 for a
   * zero-length transition.
   */
  function Progress(t: ActiveTransition, now: int): (p: real)
    ensures 0.0 <= p <= 1.0
    ensures t.duration == 0 ==> p == 1.0
  {
    if t.duration == 0 then 1.0
    else
      var ratio := Elapsed(t, now) as real / t.duration as real;
      if ratio > 1.0 then 1.0 else ratio
  }

  /** A transition is finished exactly when its whole duration has elapsed. */
  lemma ProgressCompleteIff(t: ActiveTransition, now: int)
    ensures Progress(t, now) >= 1.0 <==> Elapsed(t, now) >= t.duration
  {
    if t.duration > 0 {
      var d := t.duration as real;
      var e := Elapsed(t, now) as real;
      if e >= d {
        assert e / d >= 1.0 by { assert e / d * d == e; }
      } else {
        assert e / d < 1.0 by { assert e / d * d == e; }
      }
    }
  }

  /** Progress never goes backwards as the clock advances. */
  lemma ProgressMonotone(t: ActiveTransition, now1: int, now2: int)
    requires now1 <= now2
    ensures Progress(t, now1) <= Progress(t, now2)
  {
    if t.duration > 0 {
      var d := t.duration as real;
      var e1 := Elapsed(t, now1) as real;
      var e2 := Elapsed(t, now2) as real;
      assert e1 <= e2;
      assert e1 / d <= e2 / d by {
        assert e1 / d * d == e1;
        assert e2 / d * d == e2;
        DivMonotone(e1, e2, d);
      }
    }
  }

  lemma DivMonotone(a: real, b: real, d: real)
    requires a <= b && d > 0.0
    ensures a / d <= b / d
  {
    assert b / d - a / d == (b - a) / d;
  }
}
