/** The frame throttle at the top of the particle field's animation callback: a
    callback that comes less than one frame period after the last admitted frame is
    skipped; an admitted one moves the anchor forward by whole periods, so the phase
    of the clock is kept and no backlog builds up. */
module FrameGate {
  import opened Arith

  datatype Verdict = Skip | Admit(anchor: int)

  /** The gate's decision for a callback at time now, given the anchor last. */
  function Gate(last: int, now: int, period: int): (v: Verdict)
    requires period > 0
    ensures v.Skip? <==> now - last < period
    ensures v.Admit? ==> last + period <= v.anchor <= now && now - v.anchor < period
    ensures v.Admit? ==> (v.anchor - last) % period == 0
  {
    var delta := now - last;
    if delta < period then Skip
    else
      var q := delta / period;
      DivModUnique(q * period, period, q, 0);
      Admit(now - delta % period)
  }

  /** Anchor and number of admitted frames after the callbacks at the given times. */
  function Replay(last: int, times: seq<int>, period: int): (int, nat)
    requires period > 0
    decreases |times|
  {
    if times == [] then (last, 0)
    else
      var (anchor, admitted) := Replay(last, times[..|times| - 1], period);
      match Gate(anchor, times[|times| - 1], period)
      case Skip => (anchor, admitted)
      case Admit(next) => (next, admitted + 1)
  }

  /** Each admitted frame advances the anchor by at least one period, and the anchor
      never passes the latest callback time. */
  lemma {:induction false} ReplayAdvances(last: int, times: seq<int>, period: int, horizon: int)
    requires period > 0
    requires forall t :: 0 <= t < |times| ==> times[t] <= horizon
    ensures Replay(last, times, period).1 * period <= Replay(last, times, period).0 - last
    ensures Replay(last, times, period).0 == last || Replay(last, times, period).0 <= horizon
    decreases |times|
  {
    if times != [] {
      var init := times[..|times| - 1];
      ReplayAdvances(last, init, period, horizon);
      var (anchor, admitted) := Replay(last, init, period);
      var v := Gate(anchor, times[|times| - 1], period);
      assert (admitted + 1) * period == admitted * period + period;
      assert Replay(last, times, period) == if v.Skip? then (anchor, admitted) else (v.anchor, admitted + 1);
    }
  }

  /** Rate limit: callbacks up to time horizon admit at most (horizon - last) / period
      frames, however often they fire. */
  lemma AdmissionRate(last: int, times: seq<int>, period: int, horizon: int)
    requires period > 0
    requires forall t :: 0 <= t < |times| ==> times[t] <= horizon
    ensures Replay(last, times, period).1 * period <= if horizon < last then 0 else horizon - last
  {
    ReplayAdvances(last, times, period, horizon);
  }
}
