/**
 * The scrolling ground: two copies of the base image, `width` pixels wide,
 * moving left together; a copy that has left the screen is put back one
 * width to the right of the other.
 */
module Ground {

  /** Pixels the ground scrolls left per tick. */
  const VEL: int := 5

  /** The left edges of the two tiles. */
  datatype Tiles = Tiles(x1: int, x2: int)

  /** The tiles sit side by side and neither is entirely off the left edge. */
  predicate Tiled(t: Tiles, width: int) {
    && (t.x2 - t.x1 == width || t.x1 - t.x2 == width)
    && t.x1 + width >= 0
    && t.x2 + width >= 0
  }

  /**
   * One tick of scrolling: both tiles move left; the first wraps behind the
   * moved second when it has left the screen, then the second wraps behind
   * the (possibly wrapped) first.
   */
  function Scrolled(t: Tiles, width: int): (r: Tiles)
    ensures t.x1 - VEL + width < 0 ==> r.x1 == t.x2 - VEL + width
    ensures t.x1 - VEL + width >= 0 ==> r.x1 == t.x1 - VEL
    ensures t.x2 - VEL + width < 0 ==> r.x2 == r.x1 + width
    ensures t.x2 - VEL + width >= 0 ==> r.x2 == t.x2 - VEL
  {
    var x1 := t.x1 - VEL;
    var x2 := t.x2 - VEL;
    var x1' := if x1 + width < 0 then x2 + width else x1;
    var x2' := if x2 + width < 0 then x1' + width else x2;
    Tiles(x1', x2')
  }

  /**
   * With a base image wider than the scroll step, the two tiles stay exactly
   * one width apart and never both leave the screen.
   */
  lemma ScrollKeepsTiled(t: Tiles, width: int)
    requires width > VEL && Tiled(t, width)
    ensures Tiled(Scrolled(t, width), width)
  {
  }

  /** Without a wrap-around both tiles move left by exactly VEL. */
  lemma ScrollWithoutWrap(t: Tiles, width: int)
    requires t.x1 - VEL + width >= 0 && t.x2 - VEL + width >= 0
    ensures Scrolled(t, width) == Tiles(t.x1 - VEL, t.x2 - VEL)
  {
  }

  /**
   * In a tick where a tile wraps, it is the one that was behind, the other
   * still moves left by exactly VEL, and the wrapped tile lands one width
   * after it.
   */
  lemma ScrollWrap(t: Tiles, width: int)
    requires width > VEL && Tiled(t, width)
    requires t.x1 - VEL + width < 0 || t.x2 - VEL + width < 0
    ensures t.x1 - VEL + width < 0 ==> Scrolled(t, width) == Tiles(t.x2 - VEL + width, t.x2 - VEL)
    ensures t.x2 - VEL + width < 0 ==> Scrolled(t, width) == Tiles(t.x1 - VEL, t.x1 - VEL + width)
  {
  }

  class Base {
    const y: int
    /** Width of the base image. */
    const width: int
    var x1: int
    var x2: int

    function State(): Tiles
      reads this
    {
      Tiles(x1, x2)
    }

    constructor (y: int, width: int)
      ensures State() == Tiles(0, width) && this.y == y && this.width == width
      ensures width >= 0 ==> Tiled(State(), width)
    {
      this.y := y;
      this.width := width;
      x1 := 0;
      x2 := width;
    }

    method Move()
      modifies this
      ensures State() == Scrolled(old(State()), width)
      ensures old(Tiled(State(), width)) && width > VEL ==> Tiled(State(), width)
    {
      x1 := x1 - VEL;
      x2 := x2 - VEL;
      if x1 + width < 0 {
        x1 := x2 + width;
      }
      if x2 + width < 0 {
        x2 := x1 + width;
      }
      if old(Tiled(State(), width)) && width > VEL {
        ScrollKeepsTiled(old(State()), width);
      }
    }
  }
}
