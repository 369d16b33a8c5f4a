/**
 * A pipe pair: a top pipe hanging down to `height` and a bottom pipe starting
 * GAP pixels below it, scrolling left. `width` and `imageHeight` are the size
 * of the pipe image.
 */
module Pipes {

  /** Vertical opening between the two pipes. */
  const GAP: int := 200
  /** Pixels a pipe scrolls left per tick. */
  const VEL: int := 5
  /** The gap height is drawn from [MIN_HEIGHT, MAX_HEIGHT). */
  const MIN_HEIGHT: int := 50
  const MAX_HEIGHT: int := 450

  datatype PipeState = PipeState(
    x: int, height: int, top: int, bottom: int, passed: bool, width: nat, imageHeight: nat)

  /** The top image ends at `height` and the bottom image starts GAP below it. */
  predicate Gapped(p: PipeState) {
    p.bottom - p.height == GAP && p.top == p.height - p.imageHeight
  }

  /** The effect of set_height with the draw `h`. */
  function WithHeight(p: PipeState, h: int): (q: PipeState)
    requires MIN_HEIGHT <= h < MAX_HEIGHT
    ensures Gapped(q) && q.height == h
    ensures q.(height := p.height, top := p.top, bottom := p.bottom) == p
  {
    p.(height := h, top := h - p.imageHeight, bottom := h + GAP)
  }

  /** A pipe created at `x` whose gap height was drawn as `h`. */
  function Placed(x: int, h: int, width: nat, imageHeight: nat): (p: PipeState)
    requires MIN_HEIGHT <= h < MAX_HEIGHT
    ensures Gapped(p) && MIN_HEIGHT <= p.height < MAX_HEIGHT
    ensures p.x == x && !p.passed && p.width == width && p.imageHeight == imageHeight
  {
    WithHeight(PipeState(x, 0, 0, 0, false, width, imageHeight), h)
  }

  function Shifted(p: PipeState): (q: PipeState)
    ensures q.x == p.x - VEL
    ensures q.(x := p.x) == p
  {
    p.(x := p.x - VEL)
  }

  /** Scrolling keeps the gap: the opening is the same before and after. */
  lemma ShiftKeepsGap(p: PipeState)
    ensures Gapped(Shifted(p)) <==> Gapped(p)
    ensures Shifted(p).bottom - Shifted(p).top == p.bottom - p.top
  {
  }

  /** k ticks of scrolling move the pipe left by 5·k and nothing else. */
  function ShiftedBy(p: PipeState, k: nat): PipeState {
    if k == 0 then p else Shifted(ShiftedBy(p, k - 1))
  }

  lemma {:induction false} ShiftedByMovesLeft(p: PipeState, k: nat)
    ensures ShiftedBy(p, k) == p.(x := p.x - VEL * k)
  {
    if k > 0 {
      ShiftedByMovesLeft(p, k - 1);
    }
  }

  class Pipe {
    var x: int
    var height: int
    var top: int
    var bottom: int
    var passed: bool
    /** Width of the pipe image. */
    const width: nat
    /** Height of the pipe image. */
    const imageHeight: nat

    function State(): PipeState
      reads this
    {
      PipeState(x, height, top, bottom, passed, width, imageHeight)
    }

    /** `h` stands for the random draw of set_height. */
    constructor (x: int, h: int, width: nat, imageHeight: nat)
      requires MIN_HEIGHT <= h < MAX_HEIGHT
      ensures State() == Placed(x, h, width, imageHeight)
    {
      this.x := x;
      height := 0;
      top := 0;
      bottom := 0;
      this.width := width;
      this.imageHeight := imageHeight;
      passed := false;
      new;
      SetHeight(h);
    }

    method SetHeight(h: int)
      requires MIN_HEIGHT <= h < MAX_HEIGHT
      modifies this
      ensures State() == WithHeight(old(State()), h)
    {
      height := h;
      top := height - imageHeight;
      bottom := height + GAP;
    }

    method Move()
      modifies this
      ensures State() == Shifted(old(State()))
    {
      x := x - VEL;
    }
  }
}
