/**
 * The bird: vertical kinematics (jump, move), tilt, and the wing-frame
 * counter of its draw step. Screen coordinates grow downwards, so a negative
 * displacement moves the bird up.
 *
 * The value-level functions `Jumped`, `Moved` and `Drawn` say what each
 * method of `Bird` does to the whole state; the lemmas below are about them.
 */
module Birds {

  /** Tilt set on the way up, in degrees. */
  const MAX_ROTATION: int := 25
  /** Tilt lost per tick on the way down. */
  const ROT_VEL: int := 20
  /** Ticks each wing frame stays on screen. */
  const ANIMATION_TIME: int := 5
  /** Velocity a jump gives (upwards). */
  const JUMP_VEL: real := -10.5
  /** Largest downward displacement per tick. */
  const TERMINAL: real := 16.0
  /** Extra upward displacement added to every upward move. */
  const RISE_BIAS: real := 2.0
  /** How far below its jump height the bird may fall before it tilts down. */
  const TILT_MARGIN: real := 50.0
  /** The tilt decreases only while it is above this. */
  const MIN_TILT: int := -90
  /** At or below this tilt the bird is diving and does not flap. */
  const DIVE_TILT: int := -80

  /**
   * `img` is the index of the wing frame shown (0, 1 or 2);
   * `height` is the y the bird had at its last jump.
   */
  datatype BirdState = BirdState(
    x: int, y: real, tilt: int, tickCount: int, vel: real, height: real, imgCount: int, img: nat)

  function Abs(r: real): real {
    if r < 0.0 then -r else r
  }

  /** State of a bird created at (x, y). */
  function Hatched(x: int, y: real): BirdState {
    BirdState(x, y, 0, 0, 0.0, y, 0, 0)
  }

  /**
   * The states a bird can be in: its velocity is the initial 0 or the jump
   * velocity, its tilt lies in (-110, 25] and its wing counter in 0..20.
   */
  predicate Valid(s: BirdState) {
    && (s.vel == 0.0 || s.vel == JUMP_VEL)
    && s.tickCount >= 0
    && MIN_TILT - ROT_VEL < s.tilt <= MAX_ROTATION
    && 0 <= s.imgCount <= ANIMATION_TIME * 4
    && s.img <= 2
  }

  /** `vel·t + ½·3·t²`, the displacement before the terminal cap. */
  function RawDisplacement(vel: real, t: int): real {
    vel * (t as real) + 1.5 * ((t * t) as real)
  }

  /**
   * Displacement of the t-th tick after a jump: capped at 16 from above only,
   * and 2 further up when it is upwards.
   */
  function Displacement(vel: real, t: int): (d: real)
    ensures d <= TERMINAL
    ensures RawDisplacement(vel, t) >= TERMINAL ==> d == TERMINAL
    ensures d < 0.0 <==> RawDisplacement(vel, t) < 0.0
    ensures d < 0.0 ==> d == RawDisplacement(vel, t) - RISE_BIAS
    ensures 0.0 <= RawDisplacement(vel, t) < TERMINAL ==> d == RawDisplacement(vel, t)
  {
    var raw := RawDisplacement(vel, t);
    var capped := if raw >= TERMINAL then raw / Abs(raw) * TERMINAL else raw;
    if capped < 0.0 then capped - RISE_BIAS else capped
  }

  function Jumped(s: BirdState): (r: BirdState)
    ensures r.vel == JUMP_VEL && r.tickCount == 0 && r.height == s.y
    ensures r.(vel := s.vel, tickCount := s.tickCount, height := s.height) == s
  {
    s.(vel := JUMP_VEL, tickCount := 0, height := s.y)
  }

  function Moved(s: BirdState): (r: BirdState)
    ensures r.tickCount == s.tickCount + 1
    ensures r.y - s.y == Displacement(s.vel, s.tickCount + 1)
    ensures r.y <= s.y + TERMINAL
    ensures r.(y := s.y, tickCount := s.tickCount, tilt := s.tilt) == s
  {
    var t := s.tickCount + 1;
    var d := Displacement(s.vel, t);
    var y := s.y + d;
    var tilt :=
      if d < 0.0 || y < s.height + TILT_MARGIN then
        (if s.tilt < MAX_ROTATION then MAX_ROTATION else s.tilt)
      else
        (if s.tilt > MIN_TILT then s.tilt - ROT_VEL else s.tilt);
    s.(y := y, tickCount := t, tilt := tilt)
  }

  /** The wing frame for a counter value `c` in 1..21, before the dive override. */
  function CycleStep(c: int, img: nat): (int, nat) {
    if c <= ANIMATION_TIME then (c, 0)
    else if c <= ANIMATION_TIME * 2 then (c, 1)
    else if c <= ANIMATION_TIME * 3 then (c, 2)
    else if c <= ANIMATION_TIME * 4 then (c, 1)
    else if c == ANIMATION_TIME * 4 + 1 then (0, 0)
    else (c, img)
  }

  /** The non-drawing part of the draw step: advance the counter, pick the frame. */
  function Drawn(s: BirdState): (r: BirdState)
    ensures r.(imgCount := s.imgCount, img := s.img) == s
    ensures 0 <= s.imgCount <= ANIMATION_TIME * 4 ==> 0 <= r.imgCount <= ANIMATION_TIME * 4
    ensures s.img <= 2 ==> r.img <= 2
  {
    var (count, img) := CycleStep(s.imgCount + 1, s.img);
    if s.tilt <= DIVE_TILT then s.(imgCount := ANIMATION_TIME * 2, img := 1)
    else s.(imgCount := count, img := img)
  }

  lemma HatchedIsValid(x: int, y: real)
    ensures Valid(Hatched(x, y))
  {
  }

  /** Every step of the bird keeps it in its valid states. */
  lemma StepsKeepValid(s: BirdState)
    requires Valid(s)
    ensures Valid(Jumped(s)) && Valid(Moved(s)) && Valid(Drawn(s))
  {
  }

  /** A jump changes only the velocity, the tick counter and the jump height. */
  lemma JumpKeepsPositionAndTilt(s: BirdState)
    ensures Jumped(s).x == s.x && Jumped(s).y == s.y && Jumped(s).tilt == s.tilt
    ensures Jumped(Jumped(s)) == Jumped(s)
  {
  }

  /** `(t - 3)·(t - 4)` is never negative on the integers. */
  lemma ConsecutiveProduct(t: int)
    ensures (t - 3) * (t - 4) >= 0
  {
    if t <= 3 {
      assert (3 - t) * (4 - t) >= 0;
    }
  }

  /**
   * Along the arc after a jump the raw displacement `1.5·t·(t - 7)` never goes
   * below -18 at a whole tick, so the biased upward move is at least -20.
   */
  lemma {:induction false} JumpArcBounded(t: int)
    ensures -20.0 <= Displacement(JUMP_VEL, t) <= TERMINAL
  {
    ConsecutiveProduct(t);
    var p := (t - 3) * (t - 4);
    assert RawDisplacement(JUMP_VEL, t) + 18.0 == 1.5 * (p as real);
  }

  /** The deepest upward move, -20, is reached at the third and fourth tick after a jump. */
  lemma JumpArcPeak()
    ensures Displacement(JUMP_VEL, 3) == -20.0 && Displacement(JUMP_VEL, 4) == -20.0
  {
  }

  /**
   * From any valid state one move changes y by at least -20 and at most +16:
   * the cap is one-sided, so the bound upwards comes from the jump arc alone.
   */
  lemma {:induction false} MoveBounded(s: BirdState)
    requires Valid(s)
    ensures -20.0 <= Moved(s).y - s.y <= TERMINAL
  {
    var t := s.tickCount + 1;
    if s.vel == JUMP_VEL {
      JumpArcBounded(t);
    } else {
      assert RawDisplacement(s.vel, t) == 1.5 * ((t * t) as real);
      assert t * t >= 0;
    }
  }

  /** Upward moves are not capped: any upward velocity passes through unchanged, less 2. */
  lemma UpwardMoveUncapped(vel: real)
    requires vel < -1.5
    ensures Displacement(vel, 1) == vel + 1.5 - RISE_BIAS
  {
  }

  /** The first move after a jump lifts the bird by exactly 11 and tilts it fully up. */
  lemma FirstMoveAfterJump(s: BirdState)
    requires s.tilt <= MAX_ROTATION
    ensures Moved(Jumped(s)).y == s.y - 11.0
    ensures Moved(Jumped(s)).tilt == MAX_ROTATION
    ensures Moved(Jumped(s)).tickCount == 1
  {
    assert RawDisplacement(JUMP_VEL, 1) == -9.0;
  }

  /**
   * Tilt never passes MAX_ROTATION: while the bird rises or is less than 50
   * below its jump height it snaps to exactly 25; otherwise it drops by 20
   * while above -90, and stays put at or below -90.
   */
  lemma TiltBounded(s: BirdState)
    requires MIN_TILT - ROT_VEL < s.tilt <= MAX_ROTATION
    ensures MIN_TILT - ROT_VEL < Moved(s).tilt <= MAX_ROTATION
    ensures (Displacement(s.vel, s.tickCount + 1) < 0.0 || Moved(s).y < s.height + TILT_MARGIN)
            ==> Moved(s).tilt == MAX_ROTATION
    ensures !(Displacement(s.vel, s.tickCount + 1) < 0.0 || Moved(s).y < s.height + TILT_MARGIN)
            ==> Moved(s).tilt == (if s.tilt > MIN_TILT then s.tilt - ROT_VEL else s.tilt)
    ensures Moved(s).tilt < s.tilt ==> Moved(s).tilt == s.tilt - ROT_VEL && s.tilt > MIN_TILT
  {
  }

  /**
   * Outside a dive the frame follows the cycle 0,1,2,1 with each frame shown
   * for five ticks, and the counter wraps from 20 back to 0.
   */
  lemma DrawFollowsCycle(s: BirdState)
    requires 0 <= s.imgCount <= ANIMATION_TIME * 4 && s.tilt > DIVE_TILT
    ensures Drawn(s).img == [0, 1, 2, 1][(s.imgCount / ANIMATION_TIME) % 4]
    ensures Drawn(s).imgCount == (s.imgCount + 1) % (ANIMATION_TIME * 4 + 1)
  {
  }

  /** A diving bird shows the middle frame and its counter is held at 10. */
  lemma DrawWhileDiving(s: BirdState)
    requires s.tilt <= DIVE_TILT
    ensures Drawn(s).img == 1 && Drawn(s).imgCount == ANIMATION_TIME * 2
  {
  }

  /** The bird agent; `x` is fixed at creation. */
  class Bird {
    const x: int
    var y: real
    var tilt: int
    var tickCount: int
    var vel: real
    var height: real
    var imgCount: int
    var img: nat

    function State(): BirdState
      reads this
    {
      BirdState(x, y, tilt, tickCount, vel, height, imgCount, img)
    }

    constructor (x: int, y: real)
      ensures State() == Hatched(x, y)
    {
      this.x := x;
      this.y := y;
      tilt := 0;
      tickCount := 0;
      vel := 0.0;
      height := y;
      imgCount := 0;
      img := 0;
    }

    method Jump()
      modifies this
      ensures State() == Jumped(old(State()))
    {
      vel := JUMP_VEL;
      tickCount := 0;
      height := y;
    }

    method Move()
      modifies this
      ensures State() == Moved(old(State()))
    {
      tickCount := tickCount + 1;
      var displacement := RawDisplacement(vel, tickCount);
      if displacement >= TERMINAL {
        displacement := displacement / Abs(displacement) * TERMINAL;
      }
      if displacement < 0.0 {
        displacement := displacement - RISE_BIAS;
      }
      y := y + displacement;
      if displacement < 0.0 || y < height + TILT_MARGIN {
        if tilt < MAX_ROTATION {
          tilt := MAX_ROTATION;
        }
      } else {
        if tilt > MIN_TILT {
          tilt := tilt - ROT_VEL;
        }
      }
    }

    /** The frame-selection part of draw; putting the rotated image on screen is not modelled. */
    method Draw()
      modifies this
      ensures State() == Drawn(old(State()))
    {
      imgCount := imgCount + 1;
      if imgCount <= ANIMATION_TIME {
        img := 0;
      } else if imgCount <= ANIMATION_TIME * 2 {
        img := 1;
      } else if imgCount <= ANIMATION_TIME * 3 {
        img := 2;
      } else if imgCount <= ANIMATION_TIME * 4 {
        img := 1;
      } else if imgCount == ANIMATION_TIME * 4 + 1 {
        img := 0;
        imgCount := 0;
      }
      if tilt <= DIVE_TILT {
        img := 1;
        imgCount := ANIMATION_TIME * 2;
      }
    }
  }
}
