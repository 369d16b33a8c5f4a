/**
 * One tick of the `eval_genomes` loop, stated on values.
 *
 * A `World` holds the live birds with their networks and genome ids (three
 * parallel lists), the fitness of every genome of the generation, the pipes
 * and the score. `TickSpec` is the world after one pass of the loop body:
 *
 *   1. every live bird earns 0.1, moves, and jumps when its network's output
 *      for the watched pipe exceeds 0.5;
 *   2. every pipe in turn moves and sweeps the birds for collisions (a hit
 *      bird loses 1 and is popped, with the skip described in `Sweeps`);
 *      a pipe whose x drops below the birds' x is marked passed;
 *   3. if any pipe was passed the score rises by one, every bird still alive
 *      earns 5, and a new pipe appears at the right edge;
 *   4. pipes wholly off the left edge are removed;
 *   5. birds on the floor or above the ceiling are popped (same skip);
 *   6. every remaining bird advances its wing animation.
 *
 * The networks are opaque values of type N, evaluated by `activate`; the
 * pixel-mask overlap test is the predicate `collide`.
 */
module Simulation {
  import opened Sweeps
  import opened Birds
  import opened Pipes

  /** Every bird is created at (230, 350) and its x never changes. */
  const START_X: int := 230
  const START_Y: real := 350.0
  /** x of the first pipe of a generation. */
  const FIRST_PIPE_X: int := 700
  /** Window width: new pipes appear here. */
  const WIN_WIDTH: int := 600
  /** y of the ground line. */
  const FLOOR: int := 730
  /** A bird is on the floor once its image bottom, less this, reaches FLOOR. */
  const FLOOR_SLACK: int := 10
  /** A bird above this y has left the screen. */
  const CEILING: real := -50.0
  const SURVIVAL_REWARD: real := 0.1
  const PASS_BONUS: real := 5.0
  const COLLISION_PENALTY: real := 1.0
  /** A network output above this makes the bird jump. */
  const JUMP_THRESHOLD: real := 0.5

  /** Sizes of the loaded images (in pixels). */
  datatype Sprites = Sprites(birdHeight: nat, pipeWidth: nat, pipeHeight: nat, baseWidth: int)

  /** The three network inputs: the bird's y and its distances to the two pipe edges. */
  datatype Observation = Observation(y: real, toTop: real, toBottom: real)

  datatype World<N> = World(
    birds: seq<BirdState>, nets: seq<N>, ge: seq<nat>,
    fitness: seq<real>, pipes: seq<PipeState>, score: int)

  /** What one tick needs: parallel lists, one entry per genome, a pipe to look at. */
  predicate Consistent<N>(w: World<N>) {
    && |w.birds| == |w.nets| == |w.ge|
    && Distinct(w.ge)
    && (forall k :: 0 <= k < |w.ge| ==> w.ge[k] < |w.fitness|)
    && (|w.birds| > 0 ==> |w.pipes| > 0)
  }

  /**
   * What holds of every world the generation loop reaches: all birds sit at
   * START_X in a valid bird state; every pipe keeps its 200-pixel gap with a
   * height drawn from [50, 450); a pipe behind the birds is always marked
   * passed; every pipe but the newest has been passed; and the newest pipe
   * is still ahead, unpassed.
   */
  predicate Invariant<N>(w: World<N>) {
    && Consistent(w)
    && (forall k :: 0 <= k < |w.birds| ==> w.birds[k].x == START_X && Valid(w.birds[k]))
    && (forall j :: 0 <= j < |w.pipes| ==> WellPlaced(w.pipes[j]))
    && OlderPassed(w.pipes)
    && |w.pipes| > 0
    && !w.pipes[|w.pipes| - 1].passed
  }

  /** Every pipe but the newest is marked passed. */
  predicate OlderPassed(ps: seq<PipeState>) {
    forall j :: 0 <= j < |ps| - 1 ==> ps[j].passed
  }

  predicate WellPlaced(p: PipeState) {
    && Gapped(p)
    && MIN_HEIGHT <= p.height < MAX_HEIGHT
    && (p.passed || p.x >= START_X)
  }

  /** The world at the start of a generation, `h` being the first pipe's drawn height. */
  function Start<N>(nets: seq<N>, art: Sprites, h: int): (w: World<N>)
    requires MIN_HEIGHT <= h < MAX_HEIGHT
    ensures Invariant(w)
    ensures |w.birds| == |w.fitness| == |nets| && w.score == 0
    ensures forall g :: 0 <= g < |nets| ==> g in w.ge && w.fitness[g] == 0.0
  {
    var n := |nets|;
    var ge := AllIndices(n);
    forall g | 0 <= g < n
      ensures g in ge
    {
      assert ge[g] == g;
    }
    World(Fledglings(n), nets, ge, Zeros(n), [Placed(FIRST_PIPE_X, h, art.pipeWidth, art.pipeHeight)], 0)
  }

  /** n birds just created at the start position. */
  function Fledglings(n: nat): (r: seq<BirdState>)
    ensures |r| == n && forall k :: 0 <= k < n ==> r[k] == Hatched(START_X, START_Y)
  {
    seq(n, _ => Hatched(START_X, START_Y))
  }

  function Zeros(n: nat): (r: seq<real>)
    ensures |r| == n && forall k :: 0 <= k < n ==> r[k] == 0.0
  {
    seq(n, _ => 0.0)
  }

  /** The distances the network sees are to the watched pipe's gap edges. */
  function Observe(b: BirdState, p: PipeState): (o: Observation)
    ensures o.y == b.y && o.toTop >= 0.0 && o.toBottom >= 0.0
    ensures Gapped(p) && b.y <= p.height as real ==> o.toBottom == o.toTop + GAP as real
    ensures Gapped(p) && b.y >= p.bottom as real ==> o.toTop == o.toBottom + GAP as real
  {
    Observation(b.y, Abs(b.y - p.height as real), Abs(b.y - p.bottom as real))
  }

  /**
   * Which pipe the networks watch: the second one once the first bird is
   * wholly past the first pipe's right edge, otherwise the first.
   */
  function PipeIndex(birds: seq<BirdState>, pipes: seq<PipeState>): (k: nat)
    ensures |pipes| > 0 ==> k < |pipes|
    ensures k == 1 <==> |birds| > 0 && |pipes| > 1 && birds[0].x > pipes[0].x + pipes[0].width
    ensures k <= 1
  {
    if |birds| > 0 && |pipes| > 1 && birds[0].x > pipes[0].x + pipes[0].width then 1 else 0
  }

  /** A bird's turn in the first loop: move, show the network the watched pipe, maybe jump. */
  function Flown<N>(b: BirdState, net: N, target: PipeState, activate: (N, Observation) -> real): (r: BirdState)
    ensures r.x == b.x && r.y == Moved(b).y && r.tilt == Moved(b).tilt
    ensures r.imgCount == b.imgCount && r.img == b.img
  {
    var m := Moved(b);
    if activate(net, Observe(m, target)) > JUMP_THRESHOLD then Jumped(m) else m
  }

  /** Which of the birds `bs` the pipe `p` touches. */
  function Collisions(bs: seq<BirdState>, p: PipeState, collide: (BirdState, PipeState) -> bool): (r: seq<bool>)
    ensures |r| == |bs| && forall k :: 0 <= k < |bs| ==> r[k] == collide(bs[k], p)
  {
    seq(|bs|, k requires 0 <= k < |bs| => collide(bs[k], p))
  }

  /** Which of the birds `bs` are out of bounds. */
  function Escapes(bs: seq<BirdState>, birdHeight: nat): (r: seq<bool>)
    ensures |r| == |bs| && forall k :: 0 <= k < |bs| ==> r[k] == OutOfBounds(bs[k], birdHeight)
  {
    seq(|bs|, k requires 0 <= k < |bs| => OutOfBounds(bs[k], birdHeight))
  }

  /** The bird's image has touched the floor or the bird has flown off the top. */
  predicate OutOfBounds(b: BirdState, birdHeight: nat)
    ensures !OutOfBounds(b, birdHeight) <==>
      CEILING <= b.y < (FLOOR + FLOOR_SLACK) as real - birdHeight as real
  {
    b.y + birdHeight as real - FLOOR_SLACK as real >= FLOOR as real || b.y < CEILING
  }

  /**
   * Positions, among the birds `bs` entering the pipe loop, still alive after
   * each pipe of `ps` in turn has moved and swept the birds for collisions.
   */
  function Survivors(bs: seq<BirdState>, ps: seq<PipeState>, collide: (BirdState, PipeState) -> bool): (alive: seq<nat>)
    ensures Increasing(alive) && Below(alive, |bs|) && |alive| <= |bs|
    decreases |ps|
  {
    if ps == [] then AllIndices(|bs|)
    else
      var before := Survivors(bs, ps[..|ps| - 1], collide);
      var p := Shifted(ps[|ps| - 1]);
      var kept := Kept(Collisions(Select(bs, before), p, collide));
      IncreasingSelect(before, kept);
      Select(before, kept)
  }

  /** One more pipe sweeps the survivors of the pipes before it. */
  lemma SurvivorsStep(bs: seq<BirdState>, ps: seq<PipeState>, p: PipeState, collide: (BirdState, PipeState) -> bool)
    ensures var before := Survivors(bs, ps, collide);
      Survivors(bs, ps + [p], collide) == Select(before, Kept(Collisions(Select(bs, before), Shifted(p), collide)))
  {
    assert (ps + [p])[..|ps|] == ps;
  }

  /** The pass test of the pipe loop, on the pipe before it moves. */
  predicate Passes(p: PipeState)
    ensures Passes(p) <==> !p.passed && p.x < START_X + VEL
  {
    !p.passed && Shifted(p).x < START_X
  }

  /** A pipe's part of the pipe loop: move, then mark it passed if it is now behind the birds. */
  function Advanced(p: PipeState): (q: PipeState)
    ensures q.x == p.x - VEL
    ensures q.passed <==> p.passed || q.x < START_X
    ensures q.(x := p.x, passed := p.passed) == p
  {
    var m := Shifted(p);
    if !m.passed && m.x < START_X then m.(passed := true) else m
  }

  predicate OffScreen(p: PipeState) {
    p.x + p.width < 0
  }

  /** The pipes that stay after removing those wholly off the left edge, in order. */
  function OnScreen(ps: seq<PipeState>): (r: seq<PipeState>)
    ensures |r| <= |ps|
    ensures forall k :: 0 <= k < |r| ==> r[k] in ps && !OffScreen(r[k])
    ensures forall k :: 0 <= k < |ps| && !OffScreen(ps[k]) ==> ps[k] in r
  {
    if ps == [] then []
    else
      var init := OnScreen(ps[..|ps| - 1]);
      if OffScreen(ps[|ps| - 1]) then init else init + [ps[|ps| - 1]]
  }

  /** The number of pipes that pass in one pipe loop. */
  function PassCount(ps: seq<PipeState>): nat {
    if ps == [] then 0 else (if Passes(ps[0]) then 1 else 0) + PassCount(ps[1..])
  }

  predicate AnyPasses(ps: seq<PipeState>) {
    exists j :: 0 <= j < |ps| && Passes(ps[j])
  }

  function AdvancedAll(ps: seq<PipeState>): (r: seq<PipeState>)
    ensures |r| == |ps| && forall j :: 0 <= j < |ps| ==> r[j] == Advanced(ps[j])
  {
    seq(|ps|, j requires 0 <= j < |ps| => Advanced(ps[j]))
  }

  /**
   * The pipes after a tick: each advanced, those off screen dropped, and a
   * new one at the right edge when some pipe was passed.
   */
  function NextPipes(ps: seq<PipeState>, art: Sprites, h: int): (r: seq<PipeState>)
    requires MIN_HEIGHT <= h < MAX_HEIGHT
    ensures |r| <= |ps| + 1
    ensures forall j :: 0 <= j < |r| ==> !OffScreen(r[j])
    ensures AnyPasses(ps) ==> |r| > 0 && r[|r| - 1] == Placed(WIN_WIDTH, h, art.pipeWidth, art.pipeHeight)
  {
    OnScreen(AdvancedAll(ps)) + (if AnyPasses(ps) then [Placed(WIN_WIDTH, h, art.pipeWidth, art.pipeHeight)] else [])
  }

  /** The state of every bird after its turn in the first loop. */
  function Flock<N>(w: World<N>, activate: (N, Observation) -> real): (r: seq<BirdState>)
    requires Consistent(w)
    ensures |r| == |w.birds|
  {
    if |w.birds| == 0 then []
    else
      var target := w.pipes[PipeIndex(w.birds, w.pipes)];
      seq(|w.birds|, k requires 0 <= k < |w.birds| => Flown(w.birds[k], w.nets[k], target, activate))
  }

  /** Positions of the birds that survive the pipe loop. */
  function Crossed<N>(w: World<N>, activate: (N, Observation) -> real, collide: (BirdState, PipeState) -> bool): (r: seq<nat>)
    requires Consistent(w)
    ensures Increasing(r) && Below(r, |w.birds|)
  {
    Survivors(Flock(w, activate), w.pipes, collide)
  }

  /** Positions of the birds that also survive the bounds sweep. */
  function Landed<N>(w: World<N>, activate: (N, Observation) -> real, collide: (BirdState, PipeState) -> bool, birdHeight: nat): (r: seq<nat>)
    requires Consistent(w)
    ensures Increasing(r) && Below(r, |w.birds|)
    ensures forall k :: 0 <= k < |r| ==> r[k] in Crossed(w, activate, collide)
  {
    var flock := Flock(w, activate);
    var crossed := Crossed(w, activate, collide);
    var kept := Kept(Escapes(Select(flock, crossed), birdHeight));
    IncreasingSelect(crossed, kept);
    Select(crossed, kept)
  }

  /**
   * A genome's fitness change in one tick: `alive` at the start of it,
   * `crossed` still alive after the pipe loop, `bonus` some pipe was passed.
   */
  function Reward(alive: bool, crossed: bool, bonus: bool): real {
    (if alive then SURVIVAL_REWARD else 0.0)
    - (if alive && !crossed then COLLISION_PENALTY else 0.0)
    + (if crossed && bonus then PASS_BONUS else 0.0)
  }

  /** Every fitness after its genome's reward for the tick. */
  function Scored(fitness: seq<real>, ge: seq<nat>, geCrossed: seq<nat>, bonus: bool): (r: seq<real>)
    ensures |r| == |fitness|
    ensures forall g :: 0 <= g < |fitness| ==> r[g] == fitness[g] + Reward(g in ge, g in geCrossed, bonus)
  {
    seq(|fitness|, g requires 0 <= g < |fitness| => fitness[g] + Reward(g in ge, g in geCrossed, bonus))
  }

  /** The birds at positions `idx`, after their wing animation. */
  function DrawnAt(flock: seq<BirdState>, idx: seq<nat>): (r: seq<BirdState>)
    requires Below(idx, |flock|)
    ensures |r| == |idx|
    ensures forall k :: 0 <= k < |idx| ==> r[k] == Drawn(flock[idx[k]])
  {
    seq(|idx|, k requires 0 <= k < |idx| => Drawn(flock[idx[k]]))
  }

  /** The world after one tick; `h` stands for the random height of a pipe spawned in it. */
  function TickSpec<N>(w: World<N>, activate: (N, Observation) -> real, collide: (BirdState, PipeState) -> bool,
                       art: Sprites, h: int): (r: World<N>)
    requires Consistent(w) && MIN_HEIGHT <= h < MAX_HEIGHT
    ensures |r.fitness| == |w.fitness| && w.score <= r.score <= w.score + 1
  {
    var flock := Flock(w, activate);
    var geCrossed := Select(w.ge, Crossed(w, activate, collide));
    var landed := Landed(w, activate, collide, art.birdHeight);
    var bonus := AnyPasses(w.pipes);
    World(
      DrawnAt(flock, landed),
      Select(w.nets, landed),
      Select(w.ge, landed),
      Scored(w.fitness, w.ge, geCrossed, bonus),
      NextPipes(w.pipes, art, h),
      if bonus then w.score + 1 else w.score)
  }

  // ---------------------------------------------------------------------------
  // Properties of a tick

  /** A bird jumps in its turn exactly when its network's output exceeds 0.5; the jump moves it only from the next tick on. */
  lemma FlapsIffConfident<N>(b: BirdState, net: N, target: PipeState, activate: (N, Observation) -> real)
    requires b.tickCount >= 0
    ensures Flown(b, net, target, activate).tickCount == 0
            <==> activate(net, Observe(Moved(b), target)) > JUMP_THRESHOLD
    ensures Flown(b, net, target, activate).y == Moved(b).y
    ensures Flown(b, net, target, activate).tilt == Moved(b).tilt
  {
  }

  /** A bird that no pipe touches after moving is still alive after the pipe loop. */
  lemma {:induction false} SurvivorsKeepClear(bs: seq<BirdState>, ps: seq<PipeState>,
                                              collide: (BirdState, PipeState) -> bool, k: nat)
    requires k < |bs|
    requires forall j :: 0 <= j < |ps| ==> !collide(bs[k], Shifted(ps[j]))
    ensures k in Survivors(bs, ps, collide)
    decreases |ps|
  {
    if ps != [] {
      var before := Survivors(bs, ps[..|ps| - 1], collide);
      SurvivorsKeepClear(bs, ps[..|ps| - 1], collide, k);
      var m :| 0 <= m < |before| && before[m] == k;
      var p := Shifted(ps[|ps| - 1]);
      var hits := Collisions(Select(bs, before), p, collide);
      assert !hits[m];
      UnhitIsKept(hits, m);
      var kept := Kept(hits);
      var i :| 0 <= i < |kept| && kept[i] == m;
      assert Select(before, kept)[i] == k;
    } else {
      assert AllIndices(|bs|)[k] == k;
    }
  }

  /**
   * A bird that collides with no pipe and stays within the floor and ceiling
   * is still alive, with its network and genome, after the tick.
   */
  lemma TickSparesClearBird<N>(w: World<N>, activate: (N, Observation) -> real,
                               collide: (BirdState, PipeState) -> bool, art: Sprites, h: int, k: nat)
    requires Consistent(w) && MIN_HEIGHT <= h < MAX_HEIGHT && k < |w.birds|
    requires forall j :: 0 <= j < |w.pipes| ==> !collide(Flock(w, activate)[k], Shifted(w.pipes[j]))
    requires !OutOfBounds(Flock(w, activate)[k], art.birdHeight)
    ensures w.ge[k] in TickSpec(w, activate, collide, art, h).ge
  {
    var flock := Flock(w, activate);
    SurvivorsKeepClear(flock, w.pipes, collide, k);
    var crossed := Crossed(w, activate, collide);
    var m :| 0 <= m < |crossed| && crossed[m] == k;
    var hits := Escapes(Select(flock, crossed), art.birdHeight);
    assert !hits[m];
    UnhitIsKept(hits, m);
    var landed := Landed(w, activate, collide, art.birdHeight);
    var kept := Kept(hits);
    var i :| 0 <= i < |kept| && kept[i] == m;
    assert landed[i] == k;
    InSelect(w.ge, landed, k);
  }

  /** The population never grows, and every survivor's genome was alive before. */
  lemma TickNeverGrows<N>(w: World<N>, activate: (N, Observation) -> real,
                          collide: (BirdState, PipeState) -> bool, art: Sprites, h: int)
    requires Consistent(w) && MIN_HEIGHT <= h < MAX_HEIGHT
    ensures var r := TickSpec(w, activate, collide, art, h);
      && |r.birds| == |r.nets| == |r.ge| <= |w.ge|
      && (forall g :: g in r.ge ==> g in Select(w.ge, Crossed(w, activate, collide)) && g in w.ge)
  {
    var r := TickSpec(w, activate, collide, art, h);
    var crossed := Crossed(w, activate, collide);
    var kept := Kept(Escapes(Select(Flock(w, activate), crossed), art.birdHeight));
    var landed := Landed(w, activate, collide, art.birdHeight);
    assert landed == Select(crossed, kept);
    assert r.ge == Select(w.ge, landed);
    LandedWithinCrossed(w, activate, collide, art.birdHeight);
    SelectSelect(w.ge, crossed, kept);
    forall g | g in r.ge
      ensures g in Select(w.ge, crossed) && g in w.ge
    {
      SelectedAreMembers(Select(w.ge, crossed), kept, g);
      SelectedAreMembers(w.ge, crossed, g);
    }
  }

  /** There are no more landed birds than birds that crossed, and no more of those than birds. */
  lemma LandedWithinCrossed<N>(w: World<N>, activate: (N, Observation) -> real,
                               collide: (BirdState, PipeState) -> bool, birdHeight: nat)
    requires Consistent(w)
    ensures |Landed(w, activate, collide, birdHeight)| <= |Crossed(w, activate, collide)| <= |w.birds|
  {
  }

  /**
   * Fitness over one tick: a genome alive at its start earns 0.1, then either
   * loses 1 to a collision or, when some pipe was passed, earns 5 more. The
   * fitness of a genome already out of the generation stays put.
   */
  lemma TickRewards<N>(w: World<N>, activate: (N, Observation) -> real,
                       collide: (BirdState, PipeState) -> bool, art: Sprites, h: int)
    requires Consistent(w) && MIN_HEIGHT <= h < MAX_HEIGHT
    ensures var r := TickSpec(w, activate, collide, art, h);
      var crossed := Crossed(w, activate, collide);
      && |r.fitness| == |w.fitness|
      && (forall k :: 0 <= k < |w.ge| ==>
            r.fitness[w.ge[k]] == w.fitness[w.ge[k]] + SURVIVAL_REWARD +
              (if k !in crossed then -COLLISION_PENALTY
               else if AnyPasses(w.pipes) then PASS_BONUS else 0.0))
      && (forall g :: 0 <= g < |w.fitness| && g !in w.ge ==> r.fitness[g] == w.fitness[g])
  {
    var crossed := Crossed(w, activate, collide);
    forall k | 0 <= k < |w.ge|
      ensures w.ge[k] in Select(w.ge, crossed) <==> k in crossed
    {
      InSelect(w.ge, crossed, k);
    }
    forall g | 0 <= g < |w.fitness| && g !in w.ge
      ensures g !in Select(w.ge, crossed)
    {
      if g in Select(w.ge, crossed) {
        SelectedAreMembers(w.ge, crossed, g);
      }
    }
  }

  /**
   * Bounds the generation loop keeps: a tick adds at most 0.1 plus 5 per point
   * scored to any fitness; a surviving genome gains at least 0.1 and a
   * removed one loses at most 0.9.
   */
  lemma TickFitnessBounds<N>(w: World<N>, activate: (N, Observation) -> real,
                             collide: (BirdState, PipeState) -> bool, art: Sprites, h: int, g: nat)
    requires Consistent(w) && MIN_HEIGHT <= h < MAX_HEIGHT && g < |w.fitness|
    ensures var r := TickSpec(w, activate, collide, art, h);
      && r.fitness[g] <= w.fitness[g] + SURVIVAL_REWARD + (r.score - w.score) as real * PASS_BONUS
      && r.fitness[g] >= w.fitness[g] +
           (if g in r.ge then SURVIVAL_REWARD
            else if g in w.ge then SURVIVAL_REWARD - COLLISION_PENALTY
            else 0.0)
  {
    TickRewards(w, activate, collide, art, h);
    TickNeverGrows(w, activate, collide, art, h);
    if g in w.ge {
      var k :| 0 <= k < |w.ge| && w.ge[k] == g;
      InSelect(w.ge, Crossed(w, activate, collide), k);
    }
  }

  /** The score rises by one exactly when some pipe is passed during the tick, however many. */
  lemma TickScores<N>(w: World<N>, activate: (N, Observation) -> real,
                      collide: (BirdState, PipeState) -> bool, art: Sprites, h: int)
    requires Consistent(w) && MIN_HEIGHT <= h < MAX_HEIGHT
    ensures var r := TickSpec(w, activate, collide, art, h);
      && w.score <= r.score <= w.score + 1
      && (r.score == w.score + 1 <==> exists j :: 0 <= j < |w.pipes| && Passes(w.pipes[j]))
      && (r.score == w.score + 1 ==>
            |r.pipes| > 0 && r.pipes[|r.pipes| - 1] == Placed(WIN_WIDTH, h, art.pipeWidth, art.pipeHeight))
  {
  }

  /** A passed pipe stays passed: each pipe triggers the pass test at most once. */
  lemma PassedStaysPassed(p: PipeState)
    ensures Passes(p) ==> Advanced(p).passed
    ensures p.passed ==> Advanced(p).passed && !Passes(p)
  {
  }

  /**
   * The state of a pipe after `k` pipe loops: where `k` moves put it, with
   * only the pass mark possibly set on the way.
   */
  function AdvancedTimes(p: PipeState, k: nat): (q: PipeState)
    ensures q.x == p.x - VEL * k
    ensures q == ShiftedBy(p, k).(passed := q.passed) && (p.passed ==> q.passed)
  {
    if k == 0 then p else Advanced(AdvancedTimes(p, k - 1))
  }

  /**
   * An unpassed pipe ahead of the birds passes in exactly one tick: after
   * `(x - 230) / 5` further ticks, and in no other.
   */
  lemma {:induction false} PassesExactlyOnce(p: PipeState, k: nat)
    requires !p.passed && p.x >= START_X
    ensures Passes(AdvancedTimes(p, k)) <==> k == (p.x - START_X) / VEL
    ensures AdvancedTimes(p, k).passed <==> k > (p.x - START_X) / VEL
  {
    if k > 0 {
      PassesExactlyOnce(p, k - 1);
    }
  }

  /** Dropping off-screen pipes works piece by piece. */
  lemma {:induction false} OnScreenAppend(a: seq<PipeState>, b: seq<PipeState>)
    ensures OnScreen(a + b) == OnScreen(a) + OnScreen(b)
    decreases |b|
  {
    if b == [] {
      assert a + b == a;
    } else {
      var init := b[..|b| - 1];
      assert (a + b)[..|a + b| - 1] == a + init;
      OnScreenAppend(a, init);
    }
  }

  lemma OnScreenKeepsLast(ps: seq<PipeState>)
    requires |ps| > 0 && !OffScreen(ps[|ps| - 1])
    ensures |OnScreen(ps)| > 0 && OnScreen(ps)[|OnScreen(ps)| - 1] == ps[|ps| - 1]
  {
  }

  /**
   * The pipe part of the invariant survives a tick: gaps and heights are
   * untouched by scrolling, a pipe that moves behind the birds is marked in
   * the same tick, and the newest pipe is either still ahead or replaced as
   * newest by the pipe spawned because it passed.
   */
  lemma NextPipesWellPlaced(ps: seq<PipeState>, art: Sprites, h: int)
    requires MIN_HEIGHT <= h < MAX_HEIGHT
    requires forall j :: 0 <= j < |ps| ==> WellPlaced(ps[j])
    requires |ps| > 0 && !ps[|ps| - 1].passed
    ensures var r := NextPipes(ps, art, h);
      (forall j :: 0 <= j < |r| ==> WellPlaced(r[j])) && |r| > 0 && !r[|r| - 1].passed
  {
    var advanced := AdvancedAll(ps);
    assert forall j :: 0 <= j < |advanced| ==> WellPlaced(advanced[j]);
    if !AnyPasses(ps) {
      assert !Passes(ps[|ps| - 1]);
      OnScreenKeepsLast(advanced);
    }
  }

  /**
   * Only the newest pipe can still be unpassed after a tick: an older pipe
   * was passed already, and when the newest passes a fresh one is appended.
   */
  lemma NextPipesOlderPassed(ps: seq<PipeState>, art: Sprites, h: int)
    requires MIN_HEIGHT <= h < MAX_HEIGHT
    requires forall j :: 0 <= j < |ps| ==> WellPlaced(ps[j])
    requires OlderPassed(ps) && |ps| > 0 && !ps[|ps| - 1].passed
    ensures OlderPassed(NextPipes(ps, art, h))
  {
    var advanced := AdvancedAll(ps);
    var r := NextPipes(ps, art, h);
    var n := |ps|;
    if AnyPasses(ps) {
      forall j | 0 <= j < n
        ensures advanced[j].passed
      {
        if j < n - 1 {
          PassedStaysPassed(ps[j]);
        } else {
          var i :| 0 <= i < n && Passes(ps[i]);
          PassedStaysPassed(ps[i]);
        }
      }
      forall k | 0 <= k < |r| - 1
        ensures r[k].passed
      {
        assert r[k] in OnScreen(advanced);
      }
    } else {
      var init := OnScreen(advanced[..n - 1]);
      assert advanced[..n] == advanced;
      assert !OffScreen(advanced[n - 1]);
      assert r == init + [advanced[n - 1]];
      forall k | 0 <= k < |r| - 1
        ensures r[k].passed
      {
        assert r[k] == init[k];
        var i :| 0 <= i < n - 1 && advanced[i] == r[k];
        PassedStaysPassed(ps[i]);
      }
    }
  }

  /**
   * With every pipe but the newest passed, at most the newest passes in a
   * tick: the pass count is one exactly when some pipe passes.
   */
  lemma {:induction false} AtMostNewestPasses(ps: seq<PipeState>)
    requires OlderPassed(ps)
    ensures forall j :: 0 <= j < |ps| && Passes(ps[j]) ==> j == |ps| - 1
    ensures PassCount(ps) == if AnyPasses(ps) then 1 else 0
  {
    if |ps| > 1 {
      AtMostNewestPasses(ps[1..]);
      assert !Passes(ps[0]);
      forall j | 0 < j < |ps| && Passes(ps[j])
        ensures j == |ps| - 1
      {
        assert Passes(ps[1..][j - 1]);
      }
      if AnyPasses(ps) {
        var j :| 0 <= j < |ps| && Passes(ps[j]);
        assert Passes(ps[1..][j - 1]);
      } else {
        assert !AnyPasses(ps[1..]) by {
          forall j | 0 <= j < |ps| - 1
            ensures !Passes(ps[1..][j])
          {
            assert ps[1..][j] == ps[j + 1];
          }
        }
      }
    } else if |ps| == 1 {
      assert ps[1..] == [];
    }
  }

  /**
   * The score rises by exactly the number of pipes passed in the tick, which
   * is never more than one in a world the loop reaches.
   */
  lemma ScoreCountsPasses<N>(w: World<N>, activate: (N, Observation) -> real,
                             collide: (BirdState, PipeState) -> bool, art: Sprites, h: int)
    requires Invariant(w) && MIN_HEIGHT <= h < MAX_HEIGHT
    ensures TickSpec(w, activate, collide, art, h).score == w.score + PassCount(w.pipes)
    ensures PassCount(w.pipes) <= 1
  {
    AtMostNewestPasses(w.pipes);
  }

  /** The bird part of the invariant survives a tick. */
  lemma TickKeepsBirds<N>(w: World<N>, activate: (N, Observation) -> real,
                          collide: (BirdState, PipeState) -> bool, art: Sprites, h: int)
    requires Invariant(w) && MIN_HEIGHT <= h < MAX_HEIGHT
    ensures var r := TickSpec(w, activate, collide, art, h);
      forall k :: 0 <= k < |r.birds| ==> r.birds[k].x == START_X && Valid(r.birds[k])
  {
    var r := TickSpec(w, activate, collide, art, h);
    var flock := Flock(w, activate);
    var landed := Landed(w, activate, collide, art.birdHeight);
    forall k | 0 <= k < |flock|
      ensures flock[k].x == START_X && Valid(flock[k])
    {
      StepsKeepValid(w.birds[k]);
      StepsKeepValid(Moved(w.birds[k]));
    }
    forall k | 0 <= k < |r.birds|
      ensures r.birds[k].x == START_X && Valid(r.birds[k])
    {
      StepsKeepValid(flock[landed[k]]);
    }
  }

  /** The pipe part of the invariant survives a tick. */
  lemma TickKeepsPipes<N>(w: World<N>, activate: (N, Observation) -> real,
                          collide: (BirdState, PipeState) -> bool, art: Sprites, h: int)
    requires Invariant(w) && MIN_HEIGHT <= h < MAX_HEIGHT
    ensures var r := TickSpec(w, activate, collide, art, h).pipes;
      && (forall j :: 0 <= j < |r| ==> WellPlaced(r[j]))
      && OlderPassed(r) && |r| > 0 && !r[|r| - 1].passed
  {
    NextPipesWellPlaced(w.pipes, art, h);
    NextPipesOlderPassed(w.pipes, art, h);
  }

  /** Every tick keeps the loop invariant. */
  lemma TickKeepsInvariant<N>(w: World<N>, activate: (N, Observation) -> real,
                              collide: (BirdState, PipeState) -> bool, art: Sprites, h: int)
    requires Invariant(w) && MIN_HEIGHT <= h < MAX_HEIGHT
    ensures Invariant(TickSpec(w, activate, collide, art, h))
  {
    TickNeverGrows(w, activate, collide, art, h);
    DistinctSelect(w.ge, Landed(w, activate, collide, art.birdHeight));
    TickKeepsBirds(w, activate, collide, art, h);
    TickKeepsPipes(w, activate, collide, art, h);
  }

  /** Heights the pipe generator can draw. */
  predicate Drawable(heights: seq<int>) {
    forall i :: 0 <= i < |heights| ==> MIN_HEIGHT <= heights[i] < MAX_HEIGHT
  }

  /**
   * The fitness floor: a genome still alive has gained at least what any
   * collision takes back, and an eliminated one lost at most the penalty net
   * of its last tick's reward.
   */
  ghost predicate Fair<N>(w: World<N>) {
    forall g :: 0 <= g < |w.fitness| ==>
      w.fitness[g] >= (if g in w.ge then 0.0 else SURVIVAL_REWARD - COLLISION_PENALTY)
  }

  lemma TickKeepsFair<N>(w: World<N>, activate: (N, Observation) -> real,
                         collide: (BirdState, PipeState) -> bool, art: Sprites, h: int)
    requires Consistent(w) && Fair(w) && MIN_HEIGHT <= h < MAX_HEIGHT
    ensures Fair(TickSpec(w, activate, collide, art, h))
  {
    var r := TickSpec(w, activate, collide, art, h);
    TickRewards(w, activate, collide, art, h);
    TickNeverGrows(w, activate, collide, art, h);
    forall g | 0 <= g < |r.fitness|
      ensures r.fitness[g] >= (if g in r.ge then 0.0 else SURVIVAL_REWARD - COLLISION_PENALTY)
    {
      TickFitnessBounds(w, activate, collide, art, h, g);
    }
  }

  /**
   * What a world reached after t ticks satisfies: the floor of `Fair`, at
   * most one point per tick, and no genome above 0.1 per tick plus 5 per
   * point.
   */
  ghost predicate Bounded<N>(w: World<N>, t: nat) {
    && Fair(w)
    && 0 <= w.score <= t
    && forall g :: 0 <= g < |w.fitness| ==>
         w.fitness[g] <= SURVIVAL_REWARD * t as real + PASS_BONUS * w.score as real
  }

  /** The fitness range `Bounded` gives every genome after t ticks. */
  lemma FitnessBounds<N>(w: World<N>, t: nat)
    requires Bounded(w, t)
    ensures forall g :: 0 <= g < |w.fitness| ==>
      SURVIVAL_REWARD - COLLISION_PENALTY <= w.fitness[g] <= SURVIVAL_REWARD * t as real + PASS_BONUS * w.score as real
  {
    forall g | 0 <= g < |w.fitness|
      ensures SURVIVAL_REWARD - COLLISION_PENALTY <= w.fitness[g]
    {
      if g in w.ge {
        assert w.fitness[g] >= 0.0;
      }
    }
  }

  lemma StartBounded<N>(nets: seq<N>, art: Sprites, h: int)
    requires MIN_HEIGHT <= h < MAX_HEIGHT
    ensures Bounded(Start(nets, art, h), 0)
  {
  }

  /** One more tick keeps the bounds, for one more tick. */
  lemma TickKeepsBounded<N>(w: World<N>, activate: (N, Observation) -> real,
                            collide: (BirdState, PipeState) -> bool, art: Sprites, h: int, t: nat)
    requires Consistent(w) && Bounded(w, t) && MIN_HEIGHT <= h < MAX_HEIGHT
    ensures Bounded(TickSpec(w, activate, collide, art, h), t + 1)
  {
    var r := TickSpec(w, activate, collide, art, h);
    TickKeepsFair(w, activate, collide, art, h);
    TickScores(w, activate, collide, art, h);
    TickRewards(w, activate, collide, art, h);
    forall g | 0 <= g < |r.fitness|
      ensures r.fitness[g] <= SURVIVAL_REWARD * (t + 1) as real + PASS_BONUS * r.score as real
    {
      TickFitnessBounds(w, activate, collide, art, h, g);
    }
  }
}
