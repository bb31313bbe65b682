/** Tick-driven animation state machines (`anim.py`): a shared tick clock and
    the cyclic, one-shot, tilt and tilt-linked animations built on it.
    Frames are resource indexes; drawing is not modelled. */
module Anim {
  import opened Util

  // -----------------------------------------------------------------------
  // Shared clock (`Anim.tick`)

  /** A frame lasts `ticksFrame + 1` ticks; `ticksIdx` counts ticks inside it. */
  datatype Clock = Clock(ticksFrame: nat, ticksIdx: int) {
    predicate Valid() { 0 <= ticksIdx <= ticksFrame }
  }

  /** Result of one clock tick: the new clock and whether a new frame is due. */
  datatype Tock = Tock(clock: Clock, boundary: bool)

  function Tick(c: Clock): (r: Tock)
    ensures r.clock.ticksFrame == c.ticksFrame
    ensures c.Valid() ==> r.clock.Valid()
    ensures c.Valid() ==> (r.boundary <==> c.ticksIdx == c.ticksFrame)
    ensures r.boundary ==> r.clock.ticksIdx == 0
  {
    var t := c.ticksIdx + 1;
    if t > c.ticksFrame then Tock(c.(ticksIdx := 0), true)
    else Tock(c.(ticksIdx := t), false)
  }

  /** The clock after `n` ticks. */
  function ClockRun(c: Clock, n: nat): Clock
  {
    if n == 0 then c else Tick(ClockRun(c, n - 1)).clock
  }

  /** How many of the first `n` ticks reported a frame boundary. */
  function Boundaries(c: Clock, n: nat): nat
  {
    if n == 0 then 0
    else Boundaries(c, n - 1) + (if Tick(ClockRun(c, n - 1)).boundary then 1 else 0)
  }

  /** After `n` ticks the counter is `(t + n) mod (T + 1)` and exactly
      `(t + n) div (T + 1)` boundaries were reported. */
  lemma {:induction false} ClockRunClosedForm(c: Clock, n: nat)
    requires c.Valid()
    ensures ClockRun(c, n).Valid() && ClockRun(c, n).ticksFrame == c.ticksFrame
    ensures ClockRun(c, n).ticksIdx == (c.ticksIdx + n) % (c.ticksFrame + 1)
    ensures Boundaries(c, n) == (c.ticksIdx + n) / (c.ticksFrame + 1)
  {
    var m := c.ticksFrame + 1;
    if n == 0 {
      DivModUnique(c.ticksIdx, m, 0, c.ticksIdx);
    } else {
      ClockRunClosedForm(c, n - 1);
      DivModSucc(c.ticksIdx + n - 1, m);
    }
  }

  /** Starting from a fresh counter, the k-th tick reports a boundary
      exactly when k is a multiple of `ticksFrame + 1`. */
  lemma BoundaryPeriod(c: Clock, k: nat)
    requires c.Valid() && c.ticksIdx == 0 && k >= 1
    ensures Tick(ClockRun(c, k - 1)).boundary <==> k % (c.ticksFrame + 1) == 0
  {
    ClockRunClosedForm(c, k - 1);
    DivModSucc(k - 1, c.ticksFrame + 1);
  }

  // -----------------------------------------------------------------------
  // State shared by all variants (`Anim.__init__`)

  datatype AnimBase = AnimBase(frames: seq<int>, clock: Clock, frameIdx: int, resIdx: int) {
    /** The frame index is in range and the resource is that frame's. */
    predicate Valid() {
      |frames| > 0 && clock.Valid() && 0 <= frameIdx < |frames| && resIdx == frames[frameIdx]
    }
  }

  function NewAnim(frames: seq<int>, ticksFrame: nat): (a: AnimBase)
    requires |frames| > 0
    ensures a.Valid() && a.frames == frames && a.clock == Clock(ticksFrame, 0)
    ensures a.frameIdx == 0
  {
    AnimBase(frames, Clock(ticksFrame, 0), 0, frames[0])
  }

  // -----------------------------------------------------------------------
  // Cyclic animation (`AnimCyc.tick`)

  function CycTick(a: AnimBase): (r: AnimBase)
    requires a.Valid()
    ensures r.Valid() && r.frames == a.frames && r.clock == Tick(a.clock).clock
    ensures r.frameIdx == (a.frameIdx + (if Tick(a.clock).boundary then 1 else 0)) % |a.frames|
  {
    var s := Tick(a.clock);
    if s.boundary then
      var f := a.frameIdx + 1;
      var f := if f >= |a.frames| then 0 else f;
      assert f == (a.frameIdx + 1) % |a.frames| by {
        DivModUnique(a.frameIdx + 1, |a.frames|, if a.frameIdx + 1 >= |a.frames| then 1 else 0, f);
      }
      a.(clock := s.clock, frameIdx := f, resIdx := a.frames[f])
    else
      assert a.frameIdx == a.frameIdx % |a.frames| by {
        DivModUnique(a.frameIdx, |a.frames|, 0, a.frameIdx);
      }
      a.(clock := s.clock)
  }

  function CycRun(a: AnimBase, n: nat): (r: AnimBase)
    requires a.Valid()
    ensures r.Valid() && r.frames == a.frames
  {
    if n == 0 then a else CycTick(CycRun(a, n - 1))
  }

  /** After `n` ticks the frame index has advanced by the number of
      boundaries, modulo the number of frames. */
  lemma {:induction false} CycRunClosedForm(a: AnimBase, n: nat)
    requires a.Valid()
    ensures CycRun(a, n).clock == ClockRun(a.clock, n)
    ensures CycRun(a, n).frameIdx == (a.frameIdx + Boundaries(a.clock, n)) % |a.frames|
  {
    var len := |a.frames|;
    if n == 0 {
      DivModUnique(a.frameIdx, len, 0, a.frameIdx);
    } else {
      CycRunClosedForm(a, n - 1);
      var x := a.frameIdx + Boundaries(a.clock, n - 1);
      var prev := CycRun(a, n - 1);
      if Tick(prev.clock).boundary {
        DivModSucc(x, len);
        DivModUnique(prev.frameIdx + 1, len, if prev.frameIdx + 1 == len then 1 else 0,
                     if prev.frameIdx + 1 == len then 0 else prev.frameIdx + 1);
      }
    }
  }

  /** A fresh cyclic animation is back at frame 0 with a fresh counter after
      exactly `len * (ticksFrame + 1)` ticks, and not at any earlier tick. */
  lemma CycPeriod(frames: seq<int>, ticksFrame: nat, n: nat)
    requires |frames| > 0
    ensures var a := CycRun(NewAnim(frames, ticksFrame), n);
            0 < n <= |frames| * (ticksFrame + 1) ==>
              (a.frameIdx == 0 && a.clock.ticksIdx == 0 <==> n == |frames| * (ticksFrame + 1))
  {
    var a0 := NewAnim(frames, ticksFrame);
    var m, len := ticksFrame + 1, |frames|;
    if 0 < n <= len * m {
      CycRunClosedForm(a0, n);
      ClockRunClosedForm(a0.clock, n);
      var q := n / m;
      if n == len * m {
        DivModUnique(n, m, len, 0);
        DivModUnique(len, len, 1, 0);
      } else {
        DivLt(n, m, len);
        DivModUnique(q, len, 0, q);
        if n % m == 0 {
          assert n == q * m;
          assert q != 0;
        }
      }
    }
  }

  // -----------------------------------------------------------------------
  // One-shot animation (`AnimOnce`)

  datatype AnimOnce = AnimOnce(base: AnimBase, finish: bool) {
    /** Before finishing the frame index is in range; once finished it is one
        past the last frame while the resource stays the last frame's. */
    predicate Valid() {
      && |base.frames| > 0
      && base.clock.Valid()
      && (if finish then base.frameIdx == |base.frames| && base.resIdx == base.frames[|base.frames| - 1]
          else 0 <= base.frameIdx < |base.frames| && base.resIdx == base.frames[base.frameIdx])
    }
  }

  function NewOnce(frames: seq<int>, ticksFrame: nat): (a: AnimOnce)
    requires |frames| > 0
    ensures a.Valid() && !a.finish && a.base == NewAnim(frames, ticksFrame)
  {
    AnimOnce(NewAnim(frames, ticksFrame), false)
  }

  function OnceTick(a: AnimOnce): (r: AnimOnce)
    requires a.Valid()
    ensures r.Valid() && r.base.frames == a.base.frames
    ensures a.finish ==> r == a
    ensures !a.finish ==> r.base.clock == Tick(a.base.clock).clock
    ensures !a.finish ==> r.base.frameIdx == a.base.frameIdx + (if Tick(a.base.clock).boundary then 1 else 0)
    ensures !a.finish ==> (r.finish <==> r.base.frameIdx == |a.base.frames|)
  {
    if a.finish then a
    else
      var s := Tick(a.base.clock);
      if s.boundary then
        var f := a.base.frameIdx + 1;
        if f < |a.base.frames| then
          AnimOnce(a.base.(clock := s.clock, frameIdx := f, resIdx := a.base.frames[f]), false)
        else
          AnimOnce(a.base.(clock := s.clock, frameIdx := f), true)
      else
        a.(base := a.base.(clock := s.clock))
  }

  function OnceRun(a: AnimOnce, n: nat): (r: AnimOnce)
    requires a.Valid()
    ensures r.Valid() && r.base.frames == a.base.frames
  {
    if n == 0 then a else OnceTick(OnceRun(a, n - 1))
  }

  /** Up to the finishing tick a fresh one-shot animation follows its clock:
      the frame index is the number of boundaries so far. */
  lemma {:induction false} OnceRunPrefix(frames: seq<int>, ticksFrame: nat, n: nat)
    requires |frames| > 0 && n <= |frames| * (ticksFrame + 1)
    ensures var a := OnceRun(NewOnce(frames, ticksFrame), n);
            && a.base.clock == ClockRun(Clock(ticksFrame, 0), n)
            && a.base.frameIdx == n / (ticksFrame + 1)
            && (a.finish <==> n == |frames| * (ticksFrame + 1))
  {
    var m, len := ticksFrame + 1, |frames|;
    var c0 := Clock(ticksFrame, 0);
    ClockRunClosedForm(c0, n);
    if n == 0 {
      DivModUnique(0, m, 0, 0);
    } else {
      OnceRunPrefix(frames, ticksFrame, n - 1);
      ClockRunClosedForm(c0, n - 1);
      DivModSucc(n - 1, m);
      DivLt(n - 1, m, len);
      DivLt(n, m, len);
      if n == len * m {
        DivModUnique(n, m, len, 0);
      }
    }
  }

  /** Once finished, ticking changes nothing. */
  lemma {:induction false} OnceRunFinished(a: AnimOnce, n: nat)
    requires a.Valid() && a.finish
    ensures OnceRun(a, n) == a
  {
    if n > 0 {
      OnceRunFinished(a, n - 1);
    }
  }

  /** A fresh one-shot animation of `len` frames finishes on exactly the
      `len * (ticksFrame + 1)`-th tick; from then on its frame index is one
      past the end, its resource is the last frame and it never changes. */
  lemma OnceLifetime(frames: seq<int>, ticksFrame: nat, n: nat)
    requires |frames| > 0
    ensures var a := OnceRun(NewOnce(frames, ticksFrame), n);
            var total := |frames| * (ticksFrame + 1);
            && (a.finish <==> n >= total)
            && (n < total ==> a.base.frameIdx == n / (ticksFrame + 1) < |frames|)
            && (n >= total ==> a == OnceRun(NewOnce(frames, ticksFrame), total)
                               && a.base.frameIdx == |frames|
                               && a.base.resIdx == frames[|frames| - 1])
  {
    var total := |frames| * (ticksFrame + 1);
    var a0 := NewOnce(frames, ticksFrame);
    if n <= total {
      OnceRunPrefix(frames, ticksFrame, n);
      DivLt(n, ticksFrame + 1, |frames|);
    } else {
      OnceRunPrefix(frames, ticksFrame, total);
      OnceRunSplit(a0, total, n - total);
      OnceRunFinished(OnceRun(a0, total), n - total);
    }
  }

  lemma {:induction false} OnceRunSplit(a: AnimOnce, n: nat, k: nat)
    requires a.Valid()
    ensures OnceRun(a, n + k) == OnceRun(OnceRun(a, n), k)
  {
    if k > 0 {
      OnceRunSplit(a, n, k - 1);
    }
  }

  // -----------------------------------------------------------------------
  // Tilt animation (`AnimTilt`)

  datatype AnimTilt = AnimTilt(base: AnimBase, tiltDir: int, iniIdx: int) {
    /** The rest frame is the middle of the list. */
    predicate Valid() { base.Valid() && iniIdx == |base.frames| / 2 }
  }

  function Dist(a: int, b: int): nat { if a <= b then b - a else a - b }

  function NewTilt(frames: seq<int>, ticksFrame: nat): (a: AnimTilt)
    requires |frames| > 0
    ensures a.Valid() && a.base.frames == frames && a.tiltDir == 0
    ensures a.base.frameIdx == a.iniIdx == |frames| / 2
    ensures a.base.clock == Clock(ticksFrame, 0)
  {
    var b := NewAnim(frames, ticksFrame);
    var ini := |frames| / 2;
    AnimTilt(b.(frameIdx := ini, resIdx := frames[ini]), 0, ini)
  }

  /** On a boundary, a non-zero direction leans by that amount, clamped to
      the frame list; a zero direction steps once toward the rest frame
      without overshooting it. Between boundaries the frame is kept. */
  function TiltTick(a: AnimTilt): (r: AnimTilt)
    requires a.Valid()
    ensures r.Valid() && r.base.frames == a.base.frames
    ensures r.tiltDir == a.tiltDir && r.iniIdx == a.iniIdx
    ensures r.base.clock == Tick(a.base.clock).clock
    ensures !Tick(a.base.clock).boundary ==> r.base.frameIdx == a.base.frameIdx
    ensures Tick(a.base.clock).boundary && a.tiltDir > 0 ==>
              r.base.frameIdx == if a.base.frameIdx + a.tiltDir < |a.base.frames| then a.base.frameIdx + a.tiltDir
                                 else |a.base.frames| - 1
    ensures Tick(a.base.clock).boundary && a.tiltDir < 0 ==>
              r.base.frameIdx == if a.base.frameIdx + a.tiltDir >= 0 then a.base.frameIdx + a.tiltDir else 0
    ensures Tick(a.base.clock).boundary && a.tiltDir == 0 ==>
              && Dist(r.base.frameIdx, a.iniIdx) == (if a.base.frameIdx == a.iniIdx then 0 else Dist(a.base.frameIdx, a.iniIdx) - 1)
              && (a.base.frameIdx <= a.iniIdx ==> r.base.frameIdx <= a.iniIdx)
              && (a.base.frameIdx >= a.iniIdx ==> r.base.frameIdx >= a.iniIdx)
  {
    var s := Tick(a.base.clock);
    if s.boundary then
      var f :=
        if a.tiltDir != 0 then
          var g := a.base.frameIdx + a.tiltDir;
          if g < 0 then 0
          else if g >= |a.base.frames| then |a.base.frames| - 1
          else g
        else if a.base.frameIdx != a.iniIdx then
          if a.base.frameIdx < a.iniIdx then a.base.frameIdx + 1 else a.base.frameIdx - 1
        else a.base.frameIdx;
      a.(base := a.base.(clock := s.clock, frameIdx := f, resIdx := a.base.frames[f]))
    else
      a.(base := a.base.(clock := s.clock))
  }

  function TiltRun(a: AnimTilt, n: nat): (r: AnimTilt)
    requires a.Valid()
    ensures r.Valid() && r.base.frames == a.base.frames
    ensures r.tiltDir == a.tiltDir && r.iniIdx == a.iniIdx
  {
    if n == 0 then a else TiltTick(TiltRun(a, n - 1))
  }

  /** Where `b` boundaries take frame `f` under a constant direction: leaning
      saturates at the ends of the list, recovering saturates at the middle. */
  function TiltAfter(f: int, dir: int, ini: int, len: int, b: nat): int
  {
    if dir > 0 then (if f + b < len then f + b else len - 1)
    else if dir < 0 then (if f - b >= 0 then f - b else 0)
    else if f <= ini then (if f + b < ini then f + b else ini)
    else (if f - b > ini then f - b else ini)
  }

  /** With the direction held at -1, 0 or +1, the frame after `n` ticks is
      the saturating walk over the boundaries seen so far. */
  lemma {:induction false} TiltRunClosedForm(a: AnimTilt, n: nat)
    requires a.Valid() && -1 <= a.tiltDir <= 1
    ensures TiltRun(a, n).base.clock == ClockRun(a.base.clock, n)
    ensures TiltRun(a, n).base.frameIdx ==
              TiltAfter(a.base.frameIdx, a.tiltDir, a.iniIdx, |a.base.frames|, Boundaries(a.base.clock, n))
  {
    if n > 0 {
      TiltRunClosedForm(a, n - 1);
      var prev := TiltRun(a, n - 1);
      var b := Boundaries(a.base.clock, n - 1);
      assert TiltRun(a, n) == TiltTick(prev);
      assert Boundaries(a.base.clock, n) == b + (if Tick(prev.base.clock).boundary then 1 else 0);
      if Tick(prev.base.clock).boundary {
        TiltAfterSucc(a.base.frameIdx, a.tiltDir, a.iniIdx, |a.base.frames|, b);
      }
    }
  }

  /** One more boundary moves the saturating walk by one step. */
  lemma TiltAfterSucc(f: int, dir: int, ini: int, len: int, b: nat)
    requires 0 <= f < len && 0 <= ini < len && -1 <= dir <= 1
    ensures var g, h := TiltAfter(f, dir, ini, len, b), TiltAfter(f, dir, ini, len, b + 1);
            && 0 <= g < len
            && (dir > 0 ==> h == if g + 1 < len then g + 1 else len - 1)
            && (dir < 0 ==> h == if g - 1 >= 0 then g - 1 else 0)
            && (dir == 0 ==> Dist(h, ini) == (if g == ini then 0 else Dist(g, ini) - 1)
                             && (g <= ini ==> h <= ini) && (g >= ini ==> h >= ini))
  {
  }

  /** Holding the lean long enough pins the frame at the end of the list;
      releasing it long enough brings the frame back to the middle. */
  lemma TiltSettles(a: AnimTilt, n: nat)
    requires a.Valid() && -1 <= a.tiltDir <= 1
    requires Boundaries(a.base.clock, n) >= |a.base.frames|
    ensures a.tiltDir > 0 ==> TiltRun(a, n).base.frameIdx == |a.base.frames| - 1
    ensures a.tiltDir < 0 ==> TiltRun(a, n).base.frameIdx == 0
    ensures a.tiltDir == 0 ==> TiltRun(a, n).base.frameIdx == a.iniIdx
  {
    TiltRunClosedForm(a, n);
  }

  // -----------------------------------------------------------------------
  // Tilt-linked animation (`AnimTiltLink`)

  datatype AnimTiltLink = AnimTiltLink(base: AnimBase)

  /** The link copies the tilt's frame index but, as in the source, keeps
      the resource of its own first frame until its first tick. */
  function NewTiltLink(frames: seq<int>, tilt: AnimTilt): (l: AnimTiltLink)
    requires |frames| > 0
    ensures l.base.frames == frames && l.base.clock == Clock(0, 0)
    ensures l.base.frameIdx == tilt.base.frameIdx && l.base.resIdx == frames[0]
  {
    AnimTiltLink(NewAnim(frames, 0).(frameIdx := tilt.base.frameIdx))
  }

  function LinkTick(l: AnimTiltLink, tilt: AnimTilt): (r: AnimTiltLink)
    requires 0 <= tilt.base.frameIdx < |l.base.frames|
    ensures r.base.frames == l.base.frames && r.base.clock == l.base.clock
    ensures r.base.frameIdx == tilt.base.frameIdx
    ensures r.base.resIdx == r.base.frames[r.base.frameIdx]
  {
    AnimTiltLink(l.base.(frameIdx := tilt.base.frameIdx, resIdx := l.base.frames[tilt.base.frameIdx]))
  }

  /** A link whose list is at least as long as its tilt's can always tick,
      and after the tick mirrors the tilt's frame. */
  lemma LinkFollows(l: AnimTiltLink, tilt: AnimTilt)
    requires tilt.Valid() && l.base.clock.Valid() && |l.base.frames| >= |tilt.base.frames|
    ensures 0 <= tilt.base.frameIdx < |l.base.frames|
    ensures LinkTick(l, tilt).base.frameIdx == tilt.base.frameIdx
    ensures LinkTick(l, tilt).base.resIdx == l.base.frames[tilt.base.frameIdx]
  {
  }
}
