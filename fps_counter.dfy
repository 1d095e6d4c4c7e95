/** The frames-per-second badge: a sampler counts animation callbacks and publishes a
    rate once a second, Shift+F shows or hides the badge, and the published rate picks
    one of three colours. */
module FpsCounter {
  import opened Arith

  datatype Option<T> = None | Some(value: T)

  /** Length of one sampling window in milliseconds. */
  const SampleWindow: int := 1000

  /** The rate shown before the first window closes. */
  const InitialFps: int := 60

  /** Math.round(num / den) for a positive den: the nearest integer, halves rounding up. */
  function RoundDiv(num: int, den: int): (r: int)
    requires den > 0
    ensures 2 * r * den <= 2 * num + den < 2 * r * den + 2 * den
  {
    var q := (2 * num + den) / (2 * den);
    assert 2 * num + den == q * (2 * den) + (2 * num + den) % (2 * den);
    assert q * (2 * den) == 2 * q * den;
    q
  }

  /** The sampler's state: the published rate, frames counted in the open window and
      the time the window opened. */
  datatype Sampler = Sampler(fps: int, frameCount: nat, lastTime: int)

  /** One callback at time now: count the frame, then close the window when it has
      lasted at least a second, publishing the rounded rate over it. */
  function Tick(s: Sampler, now: int): (r: Sampler)
    ensures now - s.lastTime >= SampleWindow ==>
      && r.frameCount == 0 && r.lastTime == now
      && var delta, frames := now - s.lastTime, s.frameCount + 1;
         2 * r.fps * delta <= 2 * frames * 1000 + delta < 2 * r.fps * delta + 2 * delta
    ensures now - s.lastTime < SampleWindow ==>
      r.fps == s.fps && r.lastTime == s.lastTime && r.frameCount == s.frameCount + 1
  {
    var frameCount := s.frameCount + 1;
    var delta := now - s.lastTime;
    if delta >= SampleWindow then Sampler(RoundDiv(frameCount * 1000, delta), 0, now)
    else s.(frameCount := frameCount)
  }

  /** The sampler after callbacks at the given times, in order. */
  function Run(s: Sampler, times: seq<int>): Sampler
    decreases |times|
  {
    if times == [] then s else Tick(Run(s, times[..|times| - 1]), times[|times| - 1])
  }

  /** Within a window, every callback only adds one to the count. */
  lemma {:induction false} QuietWindow(s: Sampler, times: seq<int>)
    requires forall t :: 0 <= t < |times| ==> times[t] - s.lastTime < SampleWindow
    ensures Run(s, times) == s.(frameCount := s.frameCount + |times|)
    decreases |times|
  {
    if times != [] {
      QuietWindow(s, times[..|times| - 1]);
    }
  }

  /** A published rate is never more than the frames counted in its window, since the
      window lasts at least a second. */
  lemma RateAtMostFrames(s: Sampler, now: int)
    requires now - s.lastTime >= SampleWindow
    ensures 0 <= Tick(s, now).fps <= s.frameCount + 1
  {
    var delta, frames := now - s.lastTime, s.frameCount + 1;
    var f := Tick(s, now).fps;
    assert 2 * f * delta <= 2 * frames * 1000 + delta < 2 * f * delta + 2 * delta;
    MulStep(999, delta, frames);  // frames * 1000 <= frames * delta
    MulStep(frames, f, delta);    // above frames, f * delta would be too large
    MulStep(f, 0, delta);         // below zero, f * delta would be too small
  }

  /** A key press; the source reads e.shiftKey and e.key. */
  datatype KeyEvent = KeyEvent(shiftKey: bool, key: string)

  /** The visibility after a key press: Shift+F flips it, any other key keeps it. */
  function Toggled(show: bool, e: KeyEvent): (r: bool)
    ensures r != show <==> e.shiftKey && e.key == "F"
  {
    if e.shiftKey && e.key == "F" then !show else show
  }

  /** Pressing the same key twice restores the visibility. */
  lemma ToggleTwice(show: bool, e: KeyEvent)
    ensures Toggled(Toggled(show, e), e) == show
  {
  }

  datatype Tier = Emerald | Amber | Red

  /** The colour band of a rate. */
  function FpsTier(fps: int): (t: Tier)
    ensures t == Emerald <==> fps >= 55
    ensures t == Amber <==> 30 <= fps < 55
    ensures t == Red <==> fps < 30
  {
    if fps >= 55 then Emerald else if fps >= 30 then Amber else Red
  }

  function TierText(t: Tier): string
  {
    match t
    case Emerald => "text-emerald-400"
    case Amber => "text-amber-400"
    case Red => "text-red-400"
  }

  function TierDot(t: Tier): string
  {
    match t
    case Emerald => "bg-emerald-400"
    case Amber => "bg-amber-400"
    case Red => "bg-red-400"
  }

  /** The class of the rate's text. */
  function TextColour(fps: int): (c: string)
    ensures c == TierText(FpsTier(fps))
  {
    if fps >= 55 then "text-emerald-400" else if fps >= 30 then "text-amber-400" else "text-red-400"
  }

  /** The class of the pulsing dot; it follows the same split as the text. */
  function DotColour(fps: int): (c: string)
    ensures c == TierDot(FpsTier(fps))
  {
    if fps >= 55 then "bg-emerald-400" else if fps >= 30 then "bg-amber-400" else "bg-red-400"
  }

  /** What the badge shows. */
  datatype Badge = Badge(fps: int, dotClass: string, textClass: string)

  /** The rendered badge, or nothing while the counter is hidden. */
  function View(show: bool, fps: int): (r: Option<Badge>)
    ensures r.None? <==> !show
    ensures r.Some? ==> r.value.fps == fps
    ensures r.Some? ==> r.value.dotClass == TierDot(FpsTier(fps)) && r.value.textClass == TierText(FpsTier(fps))
  {
    if !show then None else Some(Badge(fps, DotColour(fps), TextColour(fps)))
  }

  /** The component's state: the published rate and the visibility (React state), the
      frame count and the window start (refs). */
  class FpsCounter {
    var fps: int
    var showCounter: bool
    var frameCount: nat
    var lastTime: int

    function Sample(): Sampler
      reads this
    {
      Sampler(fps, frameCount, lastTime)
    }

    /** The initial state; now is the clock when the component is created. */
    constructor (now: int)
      ensures fps == InitialFps && !showCounter && frameCount == 0 && lastTime == now
    {
      fps := InitialFps;
      showCounter := false;
      frameCount := 0;
      lastTime := now;
    }

    /** One animation callback at time currentTime. */
    method UpdateFps(currentTime: int)
      modifies this`fps, this`frameCount, this`lastTime
      ensures Sample() == Tick(old(Sample()), currentTime)
    {
      frameCount := frameCount + 1;
      var delta := currentTime - lastTime;
      if delta >= SampleWindow {
        var currentFps := RoundDiv(frameCount * 1000, delta);
        fps := currentFps;
        frameCount := 0;
        lastTime := currentTime;
      }
    }

    /** The keydown handler. */
    method HandleKeyPress(e: KeyEvent)
      modifies this`showCounter
      ensures showCounter == Toggled(old(showCounter), e)
    {
      if e.shiftKey && e.key == "F" {
        showCounter := !showCounter;
      }
    }

    /** What the component renders in its current state. */
    function Render(): (r: Option<Badge>)
      reads this
      ensures r.None? <==> !showCounter
      ensures r.Some? ==> r.value.fps == fps && r.value.textClass == TextColour(fps)
      ensures r.Some? ==> r.value.dotClass == DotColour(fps)
    {
      View(showCounter, fps)
    }
  }
}
