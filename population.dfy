/**
 * The generation loop over objects. Birds and pipes are `Bird` and `Pipe`
 * objects updated in place; the three parallel lists (birds, networks,
 * genomes) are sequences the loop reassigns as it pops from them; each
 * genome's fitness is a cell of an array indexed by genome id. Each phase of
 * a tick is a method proved against the value-level functions of
 * `Simulation`, and `Tick` is proved against `TickSpec`.
 */
module Population {
  import opened Sweeps
  import opened Birds
  import opened Pipes
  import opened Simulation
  import Ground

  function States(bs: seq<Bird>): (r: seq<BirdState>)
    reads set b | b in bs
    ensures |r| == |bs| && forall k :: 0 <= k < |bs| ==> r[k] == bs[k].State()
  {
    if bs == [] then [] else [bs[0].State()] + States(bs[1..])
  }

  function PipeStates(ps: seq<Pipe>): (r: seq<PipeState>)
    reads set p | p in ps
    ensures |r| == |ps| && forall k :: 0 <= k < |ps| ==> r[k] == ps[k].State()
  {
    if ps == [] then [] else [ps[0].State()] + PipeStates(ps[1..])
  }

  lemma StatesAre(bs: seq<Bird>, ss: seq<BirdState>)
    requires |bs| == |ss| && forall k :: 0 <= k < |bs| ==> bs[k].State() == ss[k]
    ensures States(bs) == ss
  {
  }

  lemma PipeStatesAre(ps: seq<Pipe>, ss: seq<PipeState>)
    requires |ps| == |ss| && forall j :: 0 <= j < |ps| ==> ps[j].State() == ss[j]
    ensures PipeStates(ps) == ss
  {
  }

  function Hits(bs: seq<BirdState>, hit: BirdState -> bool): (r: seq<bool>)
    ensures |r| == |bs| && forall k :: 0 <= k < |bs| ==> r[k] == hit(bs[k])
  {
    seq(|bs|, k requires 0 <= k < |bs| => hit(bs[k]))
  }

  /** `f` is `f0` with `penalty` taken from every genome of `ge` missing from `ge'`. */
  ghost predicate Penalised(f: seq<real>, f0: seq<real>, ge: seq<nat>, ge': seq<nat>, penalty: real) {
    && |f| == |f0|
    && forall g :: 0 <= g < |f| ==> f[g] == f0[g] - (if g in ge && g !in ge' then penalty else 0.0)
  }

  /** `f` is `f0` with `amount` added to every genome of `ge`. */
  ghost predicate Rewarded(f: seq<real>, f0: seq<real>, ge: seq<nat>, amount: real) {
    && |f| == |f0|
    && forall g :: 0 <= g < |f| ==> f[g] == f0[g] + (if g in ge then amount else 0.0)
  }

  /** Two sweeps in a row charge each removed genome once. */
  lemma PenalisedTwice(f0: seq<real>, f1: seq<real>, f2: seq<real>, ge: seq<nat>, mid: seq<nat>, ge': seq<nat>,
                       penalty: real)
    requires Penalised(f1, f0, ge, mid, penalty) && Penalised(f2, f1, mid, ge', penalty)
    requires forall g :: g in mid ==> g in ge
    requires forall g :: g in ge' ==> g in mid
    ensures Penalised(f2, f0, ge, ge', penalty)
  {
  }

  /**
   * During a sweep with survivors `kept`, the fitness `f` is the fitness `f0`
   * before it with `penalty` taken from the genome of every original position
   * before o that the sweep has popped.
   */
  ghost predicate Charged(f: seq<real>, f0: seq<real>, ge: seq<nat>, kept: seq<nat>, o: nat, penalty: real) {
    && |f| == |f0|
    && (forall k :: 0 <= k < |ge| ==> ge[k] < |f| && f[ge[k]] == f0[ge[k]] - (if k < o && k !in kept then penalty else 0.0))
    && (forall g :: 0 <= g < |f| && g !in ge ==> f[g] == f0[g])
  }

  lemma ChargeKeeps(f: seq<real>, f0: seq<real>, ge: seq<nat>, kept: seq<nat>, o: nat, penalty: real)
    requires Charged(f, f0, ge, kept, o, penalty) && o in kept
    ensures Charged(f, f0, ge, kept, o + 1, penalty)
  {
  }

  lemma ChargePops(f: seq<real>, f0: seq<real>, ge: seq<nat>, kept: seq<nat>, o: nat, penalty: real)
    requires Charged(f, f0, ge, kept, o, penalty) && Distinct(ge) && o < |ge| && o !in kept
    requires o + 1 < |ge| ==> o + 1 in kept
    ensures Charged(f[ge[o] := f[ge[o]] - penalty], f0, ge, kept, if o + 1 < |ge| then o + 2 else |ge|, penalty)
  {
  }

  lemma ChargeEnds(f: seq<real>, f0: seq<real>, ge: seq<nat>, kept: seq<nat>, penalty: real)
    requires Charged(f, f0, ge, kept, |ge|, penalty) && Distinct(ge) && Below(kept, |ge|)
    ensures Penalised(f, f0, ge, Select(ge, kept), penalty)
  {
    forall g | 0 <= g < |f|
      ensures f[g] == f0[g] - (if g in ge && g !in Select(ge, kept) then penalty else 0.0)
    {
      if g in ge {
        var k :| 0 <= k < |ge| && ge[k] == g;
        InSelect(ge, kept, k);
      }
    }
  }

  /** The sweeps over the three lists and the fitness charges stay in step. */
  ghost predicate Culling<N>(birds: seq<Bird>, nets: seq<N>, ge: seq<nat>, hits: seq<bool>, penalty: real,
                            f0: seq<real>, birds': seq<Bird>, nets': seq<N>, ge': seq<nat>, f: seq<real>,
                            i: nat, done: seq<nat>, o: nat)
  {
    && Sweeping(birds, hits, birds', i, done, o)
    && Sweeping(nets, hits, nets', i, done, o)
    && Sweeping(ge, hits, ge', i, done, o)
    && Charged(f, f0, ge, Kept(hits), o, penalty)
  }

  lemma CullExamines<N>(birds: seq<Bird>, nets: seq<N>, ge: seq<nat>, hits: seq<bool>, penalty: real,
                        f0: seq<real>, birds': seq<Bird>, nets': seq<N>, ge': seq<nat>, f: seq<real>,
                        i: nat, done: seq<nat>, o: nat)
    requires Culling(birds, nets, ge, hits, penalty, f0, birds', nets', ge', f, i, done, o)
    requires i < |birds'|
    ensures o < |birds| && birds'[i] == birds[o] && i < |ge'| && ge'[i] == ge[o] && ge[o] < |f|
  {
    SweepExamines(birds, hits, birds', i, done, o);
    SweepExamines(ge, hits, ge', i, done, o);
  }

  lemma CullKeeps<N>(birds: seq<Bird>, nets: seq<N>, ge: seq<nat>, hits: seq<bool>, penalty: real,
                     f0: seq<real>, birds': seq<Bird>, nets': seq<N>, ge': seq<nat>, f: seq<real>,
                     i: nat, done: seq<nat>, o: nat)
    requires Culling(birds, nets, ge, hits, penalty, f0, birds', nets', ge', f, i, done, o)
    requires i < |birds'| && o < |hits| && !hits[o]
    ensures Culling(birds, nets, ge, hits, penalty, f0, birds', nets', ge', f, i + 1, done + [o], o + 1)
  {
    SweepExamines(birds, hits, birds', i, done, o);
    ChargeKeeps(f, f0, ge, Kept(hits), o, penalty);
    SweepKeeps(birds, hits, birds', i, done, o);
    SweepKeeps(nets, hits, nets', i, done, o);
    SweepKeeps(ge, hits, ge', i, done, o);
  }

  lemma CullPops<N>(birds: seq<Bird>, nets: seq<N>, ge: seq<nat>, hits: seq<bool>, penalty: real,
                    f0: seq<real>, birds': seq<Bird>, nets': seq<N>, ge': seq<nat>, f: seq<real>,
                    i: nat, done: seq<nat>, o: nat, f': seq<real>)
    requires Culling(birds, nets, ge, hits, penalty, f0, birds', nets', ge', f, i, done, o)
    requires Distinct(ge) && i < |birds'| && o < |hits| && hits[o]
    requires o < |ge| && ge[o] < |f| && f' == f[ge[o] := f[ge[o]] - penalty]
    ensures i < |nets'| && i < |ge'|
    ensures Culling(birds, nets, ge, hits, penalty, f0,
                    birds'[..i] + birds'[i + 1..], nets'[..i] + nets'[i + 1..], ge'[..i] + ge'[i + 1..],
                    f', i + 1,
                    if o + 1 < |birds| then done + [o + 1] else done,
                    if o + 1 < |birds| then o + 2 else |birds|)
  {
    SweepExamines(birds, hits, birds', i, done, o);
    SweepExamines(ge, hits, ge', i, done, o);
    ChargePops(f, f0, ge, Kept(hits), o, penalty);
    SweepPops(birds, hits, birds', i, done, o);
    SweepPops(nets, hits, nets', i, done, o);
    SweepPops(ge, hits, ge', i, done, o);
  }

  /** `birds.pop(i)`, `nets.pop(i)`, `ge.pop(i)` after charging the popped genome. */
  method CullPop<N>(birds: seq<Bird>, nets: seq<N>, ge: seq<nat>, fitness: array<real>,
                    ghost hits: seq<bool>, penalty: real, ghost f0: seq<real>,
                    birds': seq<Bird>, nets': seq<N>, ge': seq<nat>, i: nat, ghost done: seq<nat>, ghost o: nat)
    returns (birds'': seq<Bird>, nets'': seq<N>, ge'': seq<nat>, ghost done': seq<nat>, ghost o': nat)
    requires Distinct(ge)
    requires Culling(birds, nets, ge, hits, penalty, f0, birds', nets', ge', fitness[..], i, done, o)
    requires i < |birds'| && o < |hits| && hits[o]
    modifies fitness
    ensures |birds''| < |birds'|
    ensures Culling(birds, nets, ge, hits, penalty, f0, birds'', nets'', ge'', fitness[..], i + 1, done', o')
  {
    ghost var f := fitness[..];
    CullExamines(birds, nets, ge, hits, penalty, f0, birds', nets', ge', f, i, done, o);
    Charge(fitness, ge'[i], penalty);
    CullPops(birds, nets, ge, hits, penalty, f0, birds', nets', ge', f, i, done, o, fitness[..]);
    birds'' := birds'[..i] + birds'[i + 1..];
    nets'' := nets'[..i] + nets'[i + 1..];
    ge'' := ge'[..i] + ge'[i + 1..];
    done' := if o + 1 < |birds| then done + [o + 1] else done;
    o' := if o + 1 < |birds| then o + 2 else |birds|;
  }

  /** One examined bird of `Cull`: it is popped, and its genome charged, when `hit` holds. */
  method CullStep<N>(birds: seq<Bird>, nets: seq<N>, ge: seq<nat>, fitness: array<real>,
                     hit: BirdState -> bool, penalty: real, ghost hits: seq<bool>, ghost f0: seq<real>,
                     birds': seq<Bird>, nets': seq<N>, ge': seq<nat>, i: nat, ghost done: seq<nat>, ghost o: nat)
    returns (birds'': seq<Bird>, nets'': seq<N>, ge'': seq<nat>, ghost done': seq<nat>, ghost o': nat)
    requires hits == Hits(States(birds), hit) && Distinct(ge)
    requires Culling(birds, nets, ge, hits, penalty, f0, birds', nets', ge', fitness[..], i, done, o)
    requires i < |birds'|
    modifies fitness
    ensures |birds''| <= |birds'|
    ensures Culling(birds, nets, ge, hits, penalty, f0, birds'', nets'', ge'', fitness[..], i + 1, done', o')
  {
    CullExamines(birds, nets, ge, hits, penalty, f0, birds', nets', ge', fitness[..], i, done, o);
    if hit(birds'[i].State()) {
      birds'', nets'', ge'', done', o' := CullPop(birds, nets, ge, fitness, hits, penalty, f0,
                                                 birds', nets', ge', i, done, o);
    } else {
      CullKeeps(birds, nets, ge, hits, penalty, f0, birds', nets', ge', fitness[..], i, done, o);
      birds'', nets'', ge'' := birds', nets', ge';
      done', o' := done + [o], o + 1;
    }
  }

  /** `fitness[g] -= penalty`. */
  method Charge(fitness: array<real>, g: nat, penalty: real)
    requires g < fitness.Length
    modifies fitness
    ensures fitness[..] == old(fitness[..])[g := old(fitness[..])[g] - penalty]
  {
    fitness[g] := fitness[g] - penalty;
  }

  /**
   * A removal sweep `for bird in birds: if hit: pop` over the three parallel
   * lists; the genome of a popped bird loses `penalty`. The list iterator's
   * position still advances after a pop, so the bird that slides into the
   * popped place is not examined: the survivors are `Kept` of the hit flags.
   */
  method Cull<N>(birds: seq<Bird>, nets: seq<N>, ge: seq<nat>, fitness: array<real>,
                 hit: BirdState -> bool, penalty: real)
    returns (birds': seq<Bird>, nets': seq<N>, ge': seq<nat>)
    requires |birds| == |nets| == |ge| && Distinct(ge)
    requires forall k :: 0 <= k < |ge| ==> ge[k] < fitness.Length
    modifies fitness
    ensures birds' == Select(birds, Kept(Hits(States(birds), hit)))
    ensures nets' == Select(nets, Kept(Hits(States(birds), hit)))
    ensures ge' == Select(ge, Kept(Hits(States(birds), hit)))
    ensures Penalised(fitness[..], old(fitness[..]), ge, ge', penalty)
  {
    ghost var hits := Hits(States(birds), hit);
    ghost var f0 := fitness[..];
    birds', nets', ge' := birds, nets, ge;
    var i := 0;
    // `o` is the original position of the bird at `i`; `done` the original
    // positions already examined and kept, or passed over.
    ghost var o: nat := 0;
    ghost var done: seq<nat> := [];
    SweepStarts(birds, hits);
    SweepStarts(nets, hits);
    SweepStarts(ge, hits);
    while i < |birds'|
      invariant Culling(birds, nets, ge, hits, penalty, f0, birds', nets', ge', fitness[..], i, done, o)
      decreases |birds'| - i
    {
      birds', nets', ge', done, o := CullStep(birds, nets, ge, fitness, hit, penalty, hits, f0,
                                             birds', nets', ge', i, done, o);
      i := i + 1;
    }
    SweepEnds(birds, hits, birds', i, done, o);
    SweepEnds(nets, hits, nets', i, done, o);
    SweepEnds(ge, hits, ge', i, done, o);
    ChargeEnds(fitness[..], f0, ge, Kept(hits), penalty);
  }

  /**
   * The first loop of a tick: each bird's genome earns 0.1, the bird moves,
   * its network sees the watched pipe `pipes[pipeInd]`, and it jumps when the
   * output exceeds 0.5.
   */
  method Decide<N>(birds: seq<Bird>, nets: seq<N>, ge: seq<nat>, fitness: array<real>,
                   pipes: seq<Pipe>, pipeInd: nat, activate: (N, Observation) -> real)
    requires |birds| == |nets| == |ge| && Distinct(birds) && Distinct(ge)
    requires forall k :: 0 <= k < |ge| ==> ge[k] < fitness.Length
    requires |birds| > 0 ==> pipeInd < |pipes|
    modifies (set b | b in birds), fitness
    ensures forall k :: 0 <= k < |birds| ==>
              birds[k].State() == Flown(old(birds[k].State()), nets[k], pipes[pipeInd].State(), activate)
    ensures Rewarded(fitness[..], old(fitness[..]), ge, SURVIVAL_REWARD)
  {
    var i := 0;
    while i < |birds|
      invariant 0 <= i <= |birds|
      invariant forall k :: 0 <= k < i ==>
                  birds[k].State() == Flown(old(birds[k].State()), nets[k], pipes[pipeInd].State(), activate)
      invariant forall k :: i <= k < |birds| ==> birds[k].State() == old(birds[k].State())
      invariant forall g :: 0 <= g < fitness.Length ==>
                  fitness[g] == old(fitness[g]) + (if g in ge[..i] then SURVIVAL_REWARD else 0.0)
    {
      fitness[ge[i]] := fitness[ge[i]] + SURVIVAL_REWARD;
      var bird := birds[i];
      bird.Move();
      var target := pipes[pipeInd];
      var output := activate(nets[i], Observation(bird.y, Abs(bird.y - target.height as real),
                                                  Abs(bird.y - target.bottom as real)));
      if output > JUMP_THRESHOLD {
        bird.Jump();
      }
      assert ge[..i + 1] == ge[..i] + [ge[i]];
      i := i + 1;
    }
    assert ge[..|ge|] == ge;
    assert forall g :: 0 <= g < fitness.Length ==> fitness[..][g] == fitness[g] && old(fitness[..])[g] == old(fitness[g]);
  }

  /**
   * The birds' side of the pipe loop after the pipes `seen`: the three lists
   * hold the survivors of the collision sweeps so far, and each genome of a
   * removed bird has lost 1 from its fitness `f0` at the start of the loop.
   */
  ghost predicate BirdsDone<N>(birds: seq<Bird>, nets: seq<N>, ge: seq<nat>, bs: seq<BirdState>, f0: seq<real>,
                               collide: (BirdState, PipeState) -> bool, seen: seq<PipeState>,
                               birds': seq<Bird>, nets': seq<N>, ge': seq<nat>, f: seq<real>)
  {
    var alive := Survivors(bs, seen, collide);
    && |birds| == |nets| == |ge| == |bs|
    && birds' == Select(birds, alive) && nets' == Select(nets, alive) && ge' == Select(ge, alive)
    && Penalised(f, f0, ge, ge', COLLISION_PENALTY)
  }

  /**
   * The pipes' side of the pipe loop after its first j turns, on the pipes'
   * states `now`: those pipes are advanced, the rest untouched, `rem` lists
   * the advanced pipes now off screen, and `addPipe` says whether any of them
   * was passed.
   */
  ghost predicate Progress(now: seq<PipeState>, pipes: seq<Pipe>, before: seq<PipeState>, j: nat,
                           rem: seq<Pipe>, addPipe: bool)
  {
    && j <= |pipes| == |before| == |now|
    && (forall l :: 0 <= l < j ==> now[l] == Advanced(before[l]))
    && (forall l :: j <= l < |now| ==> now[l] == before[l])
    && (forall p :: p in rem ==> p in pipes[..j])
    && (forall l :: 0 <= l < j ==> (pipes[l] in rem <==> OffScreen(Advanced(before[l]))))
    && (addPipe <==> exists l :: 0 <= l < j && Passes(before[l]))
  }

  lemma ProgressStarts(pipes: seq<Pipe>, before: seq<PipeState>)
    requires |pipes| == |before|
    ensures Progress(before, pipes, before, 0, [], false)
  {
  }

  lemma ProgressEnds(now: seq<PipeState>, pipes: seq<Pipe>, before: seq<PipeState>, rem: seq<Pipe>, addPipe: bool)
    requires Progress(now, pipes, before, |pipes|, rem, addPipe)
    ensures now == AdvancedAll(before)
    ensures forall p :: p in rem ==> p in pipes
    ensures forall j :: 0 <= j < |pipes| ==> (pipes[j] in rem <==> OffScreen(now[j]))
    ensures addPipe == AnyPasses(before)
  {
    assert pipes[..|pipes|] == pipes;
  }

  lemma ProgressStep(now: seq<PipeState>, pipes: seq<Pipe>, before: seq<PipeState>, j: nat,
                     rem: seq<Pipe>, addPipe: bool, gone: bool, passedNow: bool)
    requires Progress(now, pipes, before, j, rem, addPipe) && Distinct(pipes) && j < |pipes|
    requires gone <==> OffScreen(Advanced(before[j]))
    requires passedNow <==> Passes(before[j])
    ensures Progress(now[j := Advanced(before[j])], pipes, before, j + 1,
                     if gone then rem + [pipes[j]] else rem, addPipe || passedNow)
  {
    assert pipes[..j + 1] == pipes[..j] + [pipes[j]];
  }

  /**
   * The collision sweep of the moved pipe `here` over the birds still alive:
   * the survivors are `Kept` of the collision flags, and each genome of a
   * removed bird loses 1.
   */
  method SweepCollisions<N>(birds: seq<Bird>, nets: seq<N>, ge: seq<nat>, fitness: array<real>,
                            collide: (BirdState, PipeState) -> bool, ghost bs: seq<BirdState>, ghost f0: seq<real>,
                            ghost seen: seq<PipeState>, ghost p: PipeState, here: PipeState,
                            birds': seq<Bird>, nets': seq<N>, ge': seq<nat>)
    returns (birds'': seq<Bird>, nets'': seq<N>, ge'': seq<nat>)
    requires Distinct(ge) && forall k :: 0 <= k < |ge| ==> ge[k] < fitness.Length
    requires |bs| == |birds| && (forall k :: 0 <= k < |birds| ==> birds[k].State() == bs[k]) && here == Shifted(p)
    requires BirdsDone(birds, nets, ge, bs, f0, collide, seen, birds', nets', ge', fitness[..])
    modifies fitness
    ensures BirdsDone(birds, nets, ge, bs, f0, collide, seen + [p], birds'', nets'', ge'', fitness[..])
  {
    ghost var alive := Survivors(bs, seen, collide);
    ghost var kept := Kept(Collisions(Select(bs, alive), here, collide));
    ghost var f1 := fitness[..];
    assert Hits(States(birds'), b => collide(b, here)) == Collisions(Select(bs, alive), here, collide) by {
      assert States(birds') == Select(bs, alive);
    }
    assert Distinct(ge') && forall k :: 0 <= k < |ge'| ==> ge'[k] < fitness.Length by {
      DistinctSelect(ge, alive);
    }
    birds'', nets'', ge'' := Cull(birds', nets', ge', fitness, b => collide(b, here), COLLISION_PENALTY);
    SurvivorsStep(bs, seen, p, collide);
    SelectSelect(birds, alive, kept);
    SelectSelect(nets, alive, kept);
    SelectSelect(ge, alive, kept);
    forall g | g in ge'
      ensures g in ge
    {
      SelectedAreMembers(ge, alive, g);
    }
    forall g | g in ge''
      ensures g in ge'
    {
      SelectedAreMembers(ge', kept, g);
    }
    PenalisedTwice(f0, f1, fitness[..], ge, ge', ge'', COLLISION_PENALTY);
  }

  /**
   * Pipe j's turn in the pipe loop: it moves, sweeps the birds for
   * collisions, is listed for removal once wholly off screen, and is marked
   * passed once its x is below the birds' x.
   */
  method PipeTurn<N>(pipes: seq<Pipe>, j: nat, birds: seq<Bird>, nets: seq<N>, ge: seq<nat>, fitness: array<real>,
                     collide: (BirdState, PipeState) -> bool,
                     ghost bs: seq<BirdState>, ghost f0: seq<real>, ghost before: seq<PipeState>,
                     birds': seq<Bird>, nets': seq<N>, ge': seq<nat>, rem: seq<Pipe>, addPipe: bool)
    returns (birds'': seq<Bird>, nets'': seq<N>, ge'': seq<nat>, rem': seq<Pipe>, addPipe': bool)
    requires Distinct(pipes) && j < |pipes|
    requires Distinct(ge) && forall k :: 0 <= k < |ge| ==> ge[k] < fitness.Length
    requires |bs| == |birds| && forall k :: 0 <= k < |birds| ==> birds[k].State() == bs[k]
    requires Progress(PipeStates(pipes), pipes, before, j, rem, addPipe)
    requires BirdsDone(birds, nets, ge, bs, f0, collide, before[..j], birds', nets', ge', fitness[..])
    modifies pipes[j], fitness
    ensures Progress(PipeStates(pipes), pipes, before, j + 1, rem', addPipe')
    ensures BirdsDone(birds, nets, ge, bs, f0, collide, before[..j + 1], birds'', nets'', ge'', fitness[..])
  {
    ghost var now := PipeStates(pipes);
    var pipe := pipes[j];
    pipe.Move();
    assert before[..j + 1] == before[..j] + [before[j]];
    birds'', nets'', ge'' := SweepCollisions(birds, nets, ge, fitness, collide, bs, f0, before[..j], before[j],
                                             pipe.State(), birds', nets', ge');
    var gone, passedNow := Settle(pipe, before[j]);
    rem' := if gone then rem + [pipe] else rem;
    addPipe' := addPipe || passedNow;
    PipeStatesAre(pipes, now[j := Advanced(before[j])]);
    ProgressStep(now, pipes, before, j, rem, addPipe, gone, passedNow);
  }

  /** The end of a pipe's turn: the off-screen test, then the pass test that marks it passed. */
  method Settle(pipe: Pipe, ghost p: PipeState) returns (gone: bool, passedNow: bool)
    requires pipe.State() == Shifted(p)
    modifies pipe
    ensures pipe.State() == Advanced(p)
    ensures gone <==> OffScreen(Advanced(p))
    ensures passedNow <==> Passes(p)
  {
    gone := pipe.x + pipe.width < 0;
    passedNow := false;
    if !pipe.passed && pipe.x < START_X {
      pipe.passed := true;
      passedNow := true;
    }
  }

  /** The pipe loop of a tick: every pipe takes its turn, in order. */
  method AdvancePipes<N>(pipes: seq<Pipe>, birds: seq<Bird>, nets: seq<N>, ge: seq<nat>, fitness: array<real>,
                         collide: (BirdState, PipeState) -> bool,
                         ghost before: seq<PipeState>, ghost bs: seq<BirdState>, ghost f0: seq<real>)
    returns (birds': seq<Bird>, nets': seq<N>, ge': seq<nat>, rem: seq<Pipe>, addPipe: bool)
    requires Distinct(pipes) && |birds| == |nets| == |ge| && Distinct(ge)
    requires forall k :: 0 <= k < |ge| ==> ge[k] < fitness.Length
    requires |before| == |pipes| && forall j :: 0 <= j < |pipes| ==> pipes[j].State() == before[j]
    requires |bs| == |birds| && forall k :: 0 <= k < |birds| ==> birds[k].State() == bs[k]
    requires fitness[..] == f0
    modifies (set p | p in pipes), fitness
    ensures PipeStates(pipes) == AdvancedAll(before)
    ensures var alive := Survivors(bs, before, collide);
      birds' == Select(birds, alive) && nets' == Select(nets, alive) && ge' == Select(ge, alive)
    ensures Penalised(fitness[..], f0, ge, ge', COLLISION_PENALTY)
    ensures Distinct(ge') && forall g :: g in ge' ==> g in ge && g < fitness.Length
    ensures forall p :: p in rem ==> p in pipes
    ensures forall j :: 0 <= j < |pipes| ==> (pipes[j] in rem <==> OffScreen(Advanced(before[j])))
    ensures addPipe == AnyPasses(before)
  {
    assert BirdsDone(birds, nets, ge, bs, f0, collide, before[..0], birds, nets, ge, fitness[..]) by {
      assert before[..0] == [];
      assert Select(birds, AllIndices(|birds|)) == birds && Select(nets, AllIndices(|birds|)) == nets
          && Select(ge, AllIndices(|birds|)) == ge;
    }
    PipeStatesAre(pipes, before);
    ProgressStarts(pipes, before);
    birds', nets', ge', rem, addPipe := PipeLoop(pipes, birds, nets, ge, fitness, collide, before, bs, f0);
    ProgressEnds(PipeStates(pipes), pipes, before, rem, addPipe);
    assert BirdsDone(birds, nets, ge, bs, f0, collide, before, birds', nets', ge', fitness[..]) by {
      assert before[..|pipes|] == before;
    }
    DistinctSelect(ge, Survivors(bs, before, collide));
    forall g | g in ge'
      ensures g in ge
    {
      SelectedAreMembers(ge, Survivors(bs, before, collide), g);
    }
  }

  /**
   * `for pipe in pipes:` — the turns of all pipes, from the birds `birds`
   * and pipes `before` at the start of the loop.
   */
  method PipeLoop<N>(pipes: seq<Pipe>, birds: seq<Bird>, nets: seq<N>, ge: seq<nat>, fitness: array<real>,
                     collide: (BirdState, PipeState) -> bool,
                     ghost before: seq<PipeState>, ghost bs: seq<BirdState>, ghost f0: seq<real>)
    returns (birds': seq<Bird>, nets': seq<N>, ge': seq<nat>, rem: seq<Pipe>, addPipe: bool)
    requires Distinct(pipes) && Distinct(ge) && forall k :: 0 <= k < |ge| ==> ge[k] < fitness.Length
    requires |bs| == |birds| && forall k :: 0 <= k < |birds| ==> birds[k].State() == bs[k]
    requires Progress(PipeStates(pipes), pipes, before, 0, [], false)
    requires BirdsDone(birds, nets, ge, bs, f0, collide, before[..0], birds, nets, ge, fitness[..])
    modifies (set p | p in pipes), fitness
    ensures Progress(PipeStates(pipes), pipes, before, |pipes|, rem, addPipe)
    ensures BirdsDone(birds, nets, ge, bs, f0, collide, before[..|pipes|], birds', nets', ge', fitness[..])
  {
    birds', nets', ge' := birds, nets, ge;
    rem := [];
    addPipe := false;
    for j := 0 to |pipes|
      invariant forall k :: 0 <= k < |birds| ==> birds[k].State() == bs[k]
      invariant Progress(PipeStates(pipes), pipes, before, j, rem, addPipe)
      invariant BirdsDone(birds, nets, ge, bs, f0, collide, before[..j], birds', nets', ge', fitness[..])
    {
      birds', nets', ge', rem, addPipe := PipeTurn(pipes, j, birds, nets, ge, fitness, collide, bs, f0, before,
                                                   birds', nets', ge', rem, addPipe);
    }
  }

  /** Every genome still alive earns the pass bonus. */
  method Bonus(ge: seq<nat>, fitness: array<real>)
    requires Distinct(ge) && forall k :: 0 <= k < |ge| ==> ge[k] < fitness.Length
    modifies fitness
    ensures Rewarded(fitness[..], old(fitness[..]), ge, PASS_BONUS)
  {
    for i := 0 to |ge|
      invariant forall g :: 0 <= g < fitness.Length ==>
                  fitness[g] == old(fitness[g]) + (if g in ge[..i] then PASS_BONUS else 0.0)
    {
      fitness[ge[i]] := fitness[ge[i]] + PASS_BONUS;
      assert ge[..i + 1] == ge[..i] + [ge[i]];
    }
    assert ge[..|ge|] == ge;
    assert forall g :: 0 <= g < fitness.Length ==> fitness[..][g] == fitness[g] && old(fitness[..])[g] == old(fitness[g]);
  }

  /** `for r in rem: pipes.remove(r)`. */
  method RemovePipes(pipes: seq<Pipe>, rem: seq<Pipe>) returns (pipes': seq<Pipe>)
    requires Distinct(pipes)
    ensures pipes' == Without(pipes, set p | p in rem)
  {
    WithoutNothing(pipes);
    assert (set p | p in rem[..0]) == {};
    pipes' := pipes;
    for i := 0 to |rem|
      invariant pipes' == Without(pipes, set p | p in rem[..i])
    {
      ghost var seen := rem[..i];
      ghost var seen' := rem[..i + 1];
      assert seen' == seen + [rem[i]];
      assert (set p | p in seen') == (set p | p in seen) + {rem[i]};
      RemoveFirstOfDistinct(pipes, (set p | p in seen), rem[i]);
      pipes' := RemoveFirst(pipes', rem[i]);
    }
    assert rem[..|rem|] == rem;
  }

  /** The per-bird draw call of the window refresh: each bird advances its wing animation. */
  method DrawAll(birds: seq<Bird>)
    requires Distinct(birds)
    modifies set b | b in birds
    ensures forall k :: 0 <= k < |birds| ==> birds[k].State() == Drawn(old(birds[k].State()))
  {
    for i := 0 to |birds|
      invariant forall k :: 0 <= k < i ==> birds[k].State() == Drawn(old(birds[k].State()))
      invariant forall k :: i <= k < |birds| ==> birds[k].State() == old(birds[k].State())
    {
      birds[i].Draw();
    }
  }

  /** Dropping the off-screen pipe objects leaves exactly the on-screen pipe states. */
  lemma {:induction false} PipeStatesWithout(ps: seq<Pipe>, r: set<Pipe>)
    requires forall l :: 0 <= l < |ps| ==> (ps[l] in r <==> OffScreen(ps[l].State()))
    ensures PipeStates(Without(ps, r)) == OnScreen(PipeStates(ps))
    decreases |ps|
  {
    if ps != [] {
      var head := ps[0].State();
      var tail := ps[1..];
      var rest := Without(tail, r);
      assert PipeStates(rest) == OnScreen(PipeStates(tail)) by {
        assert forall l :: 0 <= l < |tail| ==> tail[l] == ps[l + 1];
        PipeStatesWithout(tail, r);
      }
      assert OnScreen(PipeStates(ps)) == OnScreen([head]) + OnScreen(PipeStates(tail)) by {
        assert PipeStates(ps) == [head] + PipeStates(tail);
        OnScreenAppend([head], PipeStates(tail));
      }
      assert [head][..0] == [];
      if ps[0] in r {
        assert OnScreen([head]) == [];
      } else {
        assert OnScreen([head]) == [head];
        assert PipeStates([ps[0]] + rest) == [head] + PipeStates(rest) by {
          assert ([ps[0]] + rest)[1..] == rest;
        }
      }
    }
  }

  /**
   * The fitness after the pipe phase of a tick: 0.1 to every live genome,
   * 1 off each genome whose bird hit a pipe, 5 to the rest when a pipe was
   * passed (the bounds sweep after it changes no fitness).
   */
  lemma TickFitness(f0: seq<real>, f1: seq<real>, f2: seq<real>, f3: seq<real>,
                    ge: seq<nat>, crossed: seq<nat>, bonus: bool)
    requires Rewarded(f1, f0, ge, SURVIVAL_REWARD)
    requires Penalised(f2, f1, ge, crossed, COLLISION_PENALTY)
    requires if bonus then Rewarded(f3, f2, crossed, PASS_BONUS) else f3 == f2
    requires forall g :: g in crossed ==> g in ge
    ensures f3 == Scored(f0, ge, crossed, bonus)
  {
  }

  /**
   * The networks' turn: the watched pipe is the second one once the birds are
   * past the first, then every bird moves and may jump, and its genome earns 0.1;
   * last the ground scrolls one step.
   */
  method Steer<N>(birds: seq<Bird>, nets: seq<N>, ge: seq<nat>, fitness: array<real>, pipes: seq<Pipe>,
                  base: Ground.Base, activate: (N, Observation) -> real, ghost w: World<N>)
    requires Consistent(w) && Distinct(birds)
    requires w.birds == States(birds) && w.nets == nets && w.ge == ge && w.fitness == fitness[..]
    requires w.pipes == PipeStates(pipes)
    modifies (set b | b in birds), fitness, base
    ensures forall k :: 0 <= k < |birds| ==> birds[k].State() == Flock(w, activate)[k]
    ensures Rewarded(fitness[..], w.fitness, ge, SURVIVAL_REWARD)
    ensures base.State() == Ground.Scrolled(old(base.State()), base.width)
  {
    var pipeInd := 0;
    if |birds| > 0 {
      if |pipes| > 1 && birds[0].x > pipes[0].x + pipes[0].width {
        pipeInd := 1;
      }
    }
    assert |birds| > 0 ==> pipeInd == PipeIndex(w.birds, w.pipes);
    Decide(birds, nets, ge, fitness, pipes, pipeInd, activate);
    base.Move();
  }

  /**
   * When a pipe was passed: the score goes up, every surviving genome earns 5
   * and a new pipe enters at the right edge. `h` stands for its random height.
   */
  method Spawn(pipes: seq<Pipe>, addPipe: bool, ge: seq<nat>, fitness: array<real>, score: int, art: Sprites, h: int)
    returns (pipes': seq<Pipe>, score': int)
    requires Distinct(pipes) && Distinct(ge) && forall k :: 0 <= k < |ge| ==> ge[k] < fitness.Length
    requires MIN_HEIGHT <= h < MAX_HEIGHT
    modifies fitness
    ensures PipeStates(pipes') == old(PipeStates(pipes)) + (if addPipe then [Placed(WIN_WIDTH, h, art.pipeWidth, art.pipeHeight)] else [])
    ensures Distinct(pipes') && pipes'[..|pipes|] == pipes
    ensures forall p :: p in pipes' ==> p in pipes || fresh(p)
    ensures score' == if addPipe then score + 1 else score
    ensures if addPipe then Rewarded(fitness[..], old(fitness[..]), ge, PASS_BONUS) else fitness[..] == old(fitness[..])
  {
    pipes' := pipes;
    score' := score;
    if addPipe {
      score' := score + 1;
      Bonus(ge, fitness);
      pipes' := Append(pipes, art, h);
    }
  }

  /** A new pipe at the right edge, its height drawn as `h`, appended to the pipes. */
  method Append(pipes: seq<Pipe>, art: Sprites, h: int) returns (pipes': seq<Pipe>)
    requires Distinct(pipes) && MIN_HEIGHT <= h < MAX_HEIGHT
    ensures PipeStates(pipes') == old(PipeStates(pipes)) + [Placed(WIN_WIDTH, h, art.pipeWidth, art.pipeHeight)]
    ensures Distinct(pipes') && pipes'[..|pipes|] == pipes
    ensures forall p :: p in pipes' ==> p in pipes || fresh(p)
  {
    ghost var before := PipeStates(pipes);
    var p := new Pipe(WIN_WIDTH, h, art.pipeWidth, art.pipeHeight);
    pipes' := pipes + [p];
    PipeStatesAre(pipes', before + [p.State()]);
  }

  /**
   * Dropping the pipes of `rem` from the advanced pipes, with a spawned one
   * appended, leaves the next pipes: `rem` holds exactly the pipes off screen.
   */
  lemma Pruned(pipes: seq<Pipe>, spawned: seq<Pipe>, rem: seq<Pipe>, ws: seq<PipeState>, art: Sprites, h: int)
    requires MIN_HEIGHT <= h < MAX_HEIGHT
    requires PipeStates(spawned) == AdvancedAll(ws) + (if AnyPasses(ws) then [Placed(WIN_WIDTH, h, art.pipeWidth, art.pipeHeight)] else [])
    requires Distinct(spawned) && |pipes| == |ws| && spawned[..|pipes|] == pipes
    requires forall p :: p in rem ==> p in pipes
    requires forall j :: 0 <= j < |pipes| ==> (pipes[j] in rem <==> OffScreen(Advanced(ws[j])))
    ensures PipeStates(Without(spawned, set p | p in rem)) == NextPipes(ws, art, h)
  {
    var extra := if AnyPasses(ws) then [Placed(WIN_WIDTH, h, art.pipeWidth, art.pipeHeight)] else [];
    forall l | 0 <= l < |spawned|
      ensures spawned[l] in (set p | p in rem) <==> OffScreen(spawned[l].State())
    {
      assert spawned[l].State() == PipeStates(spawned)[l];
      if l < |pipes| {
        assert spawned[l] == pipes[l];
        assert PipeStates(spawned)[l] == Advanced(ws[l]);
      } else {
        assert PipeStates(spawned)[l] == Placed(WIN_WIDTH, h, art.pipeWidth, art.pipeHeight);
        assert spawned[l] !in pipes by {
          assert forall j :: 0 <= j < |pipes| ==> spawned[j] == pipes[j];
        }
      }
    }
    PipeStatesWithout(spawned, set p | p in rem);
    OnScreenAppend(AdvancedAll(ws), extra);
    assert OnScreen(extra) == extra by {
      if extra != [] {
        assert extra[..0] == [];
      }
    }
  }

  /** After the pipe loop: the spawn when a pipe was passed, then the removal of the pipes in `rem`. */
  method Replenish(pipes: seq<Pipe>, rem: seq<Pipe>, addPipe: bool, ge: seq<nat>, fitness: array<real>,
                   score: int, art: Sprites, h: int, ghost ws: seq<PipeState>)
    returns (pipes': seq<Pipe>, score': int)
    requires Distinct(pipes) && Distinct(ge) && forall k :: 0 <= k < |ge| ==> ge[k] < fitness.Length
    requires PipeStates(pipes) == AdvancedAll(ws) && addPipe == AnyPasses(ws)
    requires forall p :: p in rem ==> p in pipes
    requires forall j :: 0 <= j < |pipes| ==> (pipes[j] in rem <==> OffScreen(Advanced(ws[j])))
    requires MIN_HEIGHT <= h < MAX_HEIGHT
    modifies fitness
    ensures PipeStates(pipes') == NextPipes(ws, art, h)
    ensures Distinct(pipes')
    ensures forall p :: p in pipes' ==> p in pipes || fresh(p)
    ensures score' == if addPipe then score + 1 else score
    ensures if addPipe then Rewarded(fitness[..], old(fitness[..]), ge, PASS_BONUS) else fitness[..] == old(fitness[..])
  {
    var spawned;
    spawned, score' := Spawn(pipes, addPipe, ge, fitness, score, art, h);
    ghost var grown := PipeStates(spawned);
    pipes' := RemovePipes(spawned, rem);
    assert PipeStates(spawned) == grown;
    Pruned(pipes, spawned, rem, ws, art, h);
    DistinctWithout(spawned, set p | p in rem);
    assert forall p :: p in pipes' ==> p in spawned;
  }

  /**
   * The bounds sweep: of the birds `crossed` that survived the pipe loop, those
   * on the floor or above the ceiling are removed; their genomes lose nothing.
   */
  method SweepBounds<N>(birds: seq<Bird>, nets: seq<N>, ge: seq<nat>, fitness: array<real>, birdHeight: nat,
                        ghost flock: seq<BirdState>, ghost crossed: seq<nat>,
                        birds': seq<Bird>, nets': seq<N>, ge': seq<nat>)
    returns (birds'': seq<Bird>, nets'': seq<N>, ge'': seq<nat>)
    requires |birds| == |nets| == |ge| == |flock| && States(birds) == flock
    requires Distinct(ge) && forall k :: 0 <= k < |ge| ==> ge[k] < fitness.Length
    requires Increasing(crossed) && Below(crossed, |birds|)
    requires birds' == Select(birds, crossed) && nets' == Select(nets, crossed) && ge' == Select(ge, crossed)
    modifies fitness
    ensures var landed := Select(crossed, Kept(Escapes(Select(flock, crossed), birdHeight)));
      birds'' == Select(birds, landed) && nets'' == Select(nets, landed) && ge'' == Select(ge, landed)
    ensures Penalised(fitness[..], old(fitness[..]), ge', ge'', 0.0)
  {
    ghost var kept := Kept(Escapes(Select(flock, crossed), birdHeight));
    assert Hits(States(birds'), b => OutOfBounds(b, birdHeight)) == Escapes(Select(flock, crossed), birdHeight) by {
      assert States(birds') == Select(flock, crossed);
    }
    assert Distinct(ge') && forall k :: 0 <= k < |ge'| ==> ge'[k] < fitness.Length by {
      DistinctSelect(ge, crossed);
    }
    birds'', nets'', ge'' := Cull(birds', nets', ge', fitness, b => OutOfBounds(b, birdHeight), 0.0);
    SelectSelect(birds, crossed, kept);
    SelectSelect(nets, crossed, kept);
    SelectSelect(ge, crossed, kept);
  }

  /**
   * The pipe phase of a tick, after the networks' turn: the pipe loop, then
   * the spawn and removal of pipes. `flock` is the birds' state after their
   * turn and `fitness` already holds the survival reward.
   */
  method Cross<N>(birds: seq<Bird>, nets: seq<N>, ge: seq<nat>, fitness: array<real>, pipes: seq<Pipe>,
                  score: int, collide: (BirdState, PipeState) -> bool, art: Sprites, h: int,
                  ghost w: World<N>, ghost flock: seq<BirdState>)
    returns (birds': seq<Bird>, nets': seq<N>, ge': seq<nat>, pipes': seq<Pipe>, score': int)
    requires Consistent(w) && Distinct(pipes) && MIN_HEIGHT <= h < MAX_HEIGHT
    requires |birds| == |w.birds| && nets == w.nets && ge == w.ge && score == w.score
    requires |flock| == |birds| && forall k :: 0 <= k < |birds| ==> birds[k].State() == flock[k]
    requires |pipes| == |w.pipes| && forall j :: 0 <= j < |pipes| ==> pipes[j].State() == w.pipes[j]
    requires Rewarded(fitness[..], w.fitness, ge, SURVIVAL_REWARD)
    modifies (set p | p in pipes), fitness
    ensures var crossed := Survivors(flock, w.pipes, collide);
      && birds' == Select(birds, crossed) && nets' == Select(nets, crossed) && ge' == Select(ge, crossed)
      && fitness[..] == Scored(w.fitness, ge, ge', AnyPasses(w.pipes))
    ensures var next := NextPipes(w.pipes, art, h);
      |pipes'| == |next| && forall j :: 0 <= j < |pipes'| ==> pipes'[j].State() == next[j]
    ensures score' == if AnyPasses(w.pipes) then score + 1 else score
    ensures Distinct(pipes') && forall p :: p in pipes' ==> p in pipes || fresh(p)
  {
    ghost var crossed := Survivors(flock, w.pipes, collide);
    ghost var f1 := fitness[..];
    var rem, addPipe;
    birds', nets', ge', rem, addPipe := AdvancePipes(pipes, birds, nets, ge, fitness, collide, w.pipes, flock, f1);
    ghost var f2 := fitness[..];
    pipes', score' := Replenish(pipes, rem, addPipe, ge', fitness, score, art, h, w.pipes);
    ghost var f3 := fitness[..];
    TickFitness(w.fitness, f1, f2, f3, ge, ge', addPipe);
  }

  /**
   * The end of a tick: the bounds sweep over the birds `crossed` that survived
   * the pipe loop, then the wing animation of the birds left. The fitness
   * does not change.
   */
  method Land<N>(birds: seq<Bird>, nets: seq<N>, ge: seq<nat>, fitness: array<real>, birdHeight: nat,
                 ghost flock: seq<BirdState>, ghost crossed: seq<nat>,
                 birds': seq<Bird>, nets': seq<N>, ge': seq<nat>)
    returns (birds'': seq<Bird>, nets'': seq<N>, ge'': seq<nat>)
    requires |birds| == |nets| == |ge| == |flock| && Distinct(birds)
    requires forall k :: 0 <= k < |birds| ==> birds[k].State() == flock[k]
    requires Distinct(ge) && forall k :: 0 <= k < |ge| ==> ge[k] < fitness.Length
    requires Increasing(crossed) && Below(crossed, |birds|)
    requires birds' == Select(birds, crossed) && nets' == Select(nets, crossed) && ge' == Select(ge, crossed)
    modifies (set b | b in birds), fitness
    ensures var landed := Select(crossed, Kept(Escapes(Select(flock, crossed), birdHeight)));
      && |birds''| == |landed|
      && (forall k :: 0 <= k < |landed| ==> birds''[k].State() == Drawn(flock[landed[k]]))
      && nets'' == Select(nets, landed) && ge'' == Select(ge, landed)
    ensures fitness[..] == old(fitness[..])
    ensures Distinct(birds'') && forall b :: b in birds'' ==> b in birds
  {
    ghost var landed := Select(crossed, Kept(Escapes(Select(flock, crossed), birdHeight)));
    ghost var f := fitness[..];
    StatesAre(birds, flock);
    birds'', nets'', ge'' := SweepBounds(birds, nets, ge, fitness, birdHeight, flock, crossed, birds', nets', ge');
    assert fitness[..] == f;
    IncreasingSelect(crossed, Kept(Escapes(Select(flock, crossed), birdHeight)));
    assert Distinct(birds'') && forall b :: b in birds'' ==> b in birds by {
      DistinctSelect(birds, landed);
      forall b | b in birds''
        ensures b in birds
      {
        SelectedAreMembers(birds, landed, b);
      }
    }
    assert forall k :: 0 <= k < |birds''| ==> birds''[k].State() == flock[landed[k]];
    DrawAll(birds'');
  }

  /**
   * A tick after the networks' turn: the pipe phase, the bounds sweep and the
   * wing animation, stated component by component.
   */
  method Rest<N>(birds: seq<Bird>, nets: seq<N>, ge: seq<nat>, fitness: array<real>, pipes: seq<Pipe>,
                 score: int, activate: (N, Observation) -> real,
                 collide: (BirdState, PipeState) -> bool, art: Sprites, h: int, ghost w: World<N>)
    returns (birds': seq<Bird>, nets': seq<N>, ge': seq<nat>, pipes': seq<Pipe>, score': int)
    requires Consistent(w) && Distinct(birds) && Distinct(pipes) && MIN_HEIGHT <= h < MAX_HEIGHT
    requires |birds| == |w.birds| && nets == w.nets && ge == w.ge && score == w.score
    requires forall k :: 0 <= k < |birds| ==> birds[k].State() == Flock(w, activate)[k]
    requires |pipes| == |w.pipes| && forall j :: 0 <= j < |pipes| ==> pipes[j].State() == w.pipes[j]
    requires Rewarded(fitness[..], w.fitness, ge, SURVIVAL_REWARD)
    modifies (set b | b in birds), (set p | p in pipes), fitness
    ensures var flock := Flock(w, activate);
      var landed := Landed(w, activate, collide, art.birdHeight);
      && |birds'| == |landed|
      && (forall k :: 0 <= k < |landed| ==> birds'[k].State() == Drawn(flock[landed[k]]))
      && nets' == Select(nets, landed) && ge' == Select(ge, landed)
    ensures fitness[..] == Scored(w.fitness, ge, Select(ge, Crossed(w, activate, collide)), AnyPasses(w.pipes))
    ensures var next := NextPipes(w.pipes, art, h);
      |pipes'| == |next| && forall j :: 0 <= j < |pipes'| ==> pipes'[j].State() == next[j]
    ensures score' == if AnyPasses(w.pipes) then score + 1 else score
    ensures Distinct(birds') && Distinct(pipes')
    ensures forall b :: b in birds' ==> b in birds
    ensures forall p :: p in pipes' ==> p in pipes || fresh(p)
  {
    ghost var flock := Flock(w, activate);
    ghost var crossed := Crossed(w, activate, collide);
    var crossers, crossNets, crossGe;
    crossers, crossNets, crossGe, pipes', score' := Cross(birds, nets, ge, fitness, pipes, score, collide, art, h, w, flock);
    birds', nets', ge' := Land(birds, nets, ge, fitness, art.birdHeight, flock, crossed, crossers, crossNets, crossGe);
  }

  /**
   * One pass of the generation loop's body over the objects: its effect on
   * the birds, networks, genomes, fitness, pipes and score is `TickSpec`;
   * `h` stands for the random height of a pipe spawned in this tick.
   */
  method Tick<N>(birds: seq<Bird>, nets: seq<N>, ge: seq<nat>, fitness: array<real>, pipes: seq<Pipe>,
                 score: int, base: Ground.Base, activate: (N, Observation) -> real,
                 collide: (BirdState, PipeState) -> bool, art: Sprites, h: int)
    returns (birds': seq<Bird>, nets': seq<N>, ge': seq<nat>, pipes': seq<Pipe>, score': int)
    requires Distinct(birds) && Distinct(pipes)
    requires Consistent(World(States(birds), nets, ge, fitness[..], PipeStates(pipes), score))
    requires MIN_HEIGHT <= h < MAX_HEIGHT
    modifies (set b | b in birds), (set p | p in pipes), fitness, base
    ensures World(States(birds'), nets', ge', fitness[..], PipeStates(pipes'), score')
         == TickSpec(old(World(States(birds), nets, ge, fitness[..], PipeStates(pipes), score)),
                     activate, collide, art, h)
    ensures base.State() == Ground.Scrolled(old(base.State()), base.width)
    ensures Distinct(birds') && Distinct(pipes')
    ensures forall b :: b in birds' ==> b in birds
    ensures forall p :: p in pipes' ==> p in pipes || fresh(p)
  {
    ghost var w := World(States(birds), nets, ge, fitness[..], PipeStates(pipes), score);
    Steer(birds, nets, ge, fitness, pipes, base, activate, w);
    birds', nets', ge', pipes', score' := Rest(birds, nets, ge, fitness, pipes, score, activate, collide, art, h, w);
    ghost var spec := TickSpec(w, activate, collide, art, h);
    PipeStatesAre(pipes', spec.pipes);
    assert States(birds') == spec.birds;
  }

  /** One new bird per genome, all at the start position. */
  method Hatch(n: nat) returns (birds: seq<Bird>)
    ensures States(birds) == Fledglings(n) && Distinct(birds)
    ensures forall b :: b in birds ==> fresh(b)
  {
    birds := [];
    while |birds| < n
      invariant |birds| <= n && Distinct(birds)
      invariant forall k :: 0 <= k < |birds| ==> fresh(birds[k]) && birds[k].State() == Hatched(START_X, START_Y)
    {
      var b := new Bird(START_X, START_Y);
      birds := birds + [b];
    }
    StatesAre(birds, Fledglings(n));
  }

  /**
   * A tick of the generation loop seen from the loop: `Tick` turns the world
   * `w` of the objects, reached after t ticks, into the world `w'`, which is
   * `TickSpec` of `w` and still within the invariant and the bounds for t + 1
   * ticks. The equation with `TickSpec` is stated for every `h'` equal to `h`
   * so that it only comes into play where a caller mentions `TickSpec` itself;
   * `Play` needs the invariant alone.
   */
  method Round<N>(birds: seq<Bird>, nets: seq<N>, ge: seq<nat>, fitness: array<real>, pipes: seq<Pipe>,
                  score: int, base: Ground.Base, activate: (N, Observation) -> real,
                  collide: (BirdState, PipeState) -> bool, art: Sprites, h: int, t: nat, ghost w: World<N>)
    returns (birds': seq<Bird>, nets': seq<N>, ge': seq<nat>, pipes': seq<Pipe>, score': int, ghost w': World<N>)
    requires Distinct(birds) && Distinct(pipes) && MIN_HEIGHT <= h < MAX_HEIGHT
    requires w == World(States(birds), nets, ge, fitness[..], PipeStates(pipes), score)
    requires Invariant(w) && Bounded(w, t)
    modifies (set b | b in birds), (set p | p in pipes), fitness, base
    ensures w' == World(States(birds'), nets', ge', fitness[..], PipeStates(pipes'), score')
    ensures Invariant(w') && Bounded(w', t + 1)
    ensures Distinct(birds') && Distinct(pipes')
    ensures forall b :: b in birds' ==> b in birds
    ensures forall p :: p in pipes' ==> p in pipes || fresh(p)
    ensures forall h' :: h' == h ==> w' == TickSpec(w, activate, collide, art, h')
  {
    birds', nets', ge', pipes', score' := Tick(birds, nets, ge, fitness, pipes, score, base, activate, collide, art, h);
    TickKeepsInvariant(w, activate, collide, art, h);
    TickKeepsBounded(w, activate, collide, art, h, t);
    w' := TickSpec(w, activate, collide, art, h);
  }

  /**
   * The start of a generation: a bird per genome at (230, 350), the genome
   * ids, every fitness 0, the ground at y 730 and one pipe at x 700 whose
   * height was drawn as `h`: the parts of the world `Start`.
   */
  method Setup<N>(nets: seq<N>, art: Sprites, h: int)
    returns (birds: seq<Bird>, ge: seq<nat>, fitness: array<real>, base: Ground.Base, pipes: seq<Pipe>)
    requires MIN_HEIGHT <= h < MAX_HEIGHT
    ensures States(birds) == Fledglings(|nets|) && ge == AllIndices(|nets|) && fitness[..] == Zeros(|nets|)
    ensures PipeStates(pipes) == [Placed(FIRST_PIPE_X, h, art.pipeWidth, art.pipeHeight)]
    ensures fitness.Length == |nets| && Distinct(birds) && Distinct(pipes)
    ensures fresh(fitness) && fresh(base) && base.State() == Ground.Tiles(0, art.baseWidth)
    ensures forall b :: b in birds ==> fresh(b)
    ensures forall p :: p in pipes ==> fresh(p)
  {
    birds := Hatch(|nets|);
    ge := AllIndices(|nets|);
    fitness := new real[|nets|](_ => 0.0);
    assert fitness[..] == Zeros(|nets|);
    base, pipes := Lay(art, h);
  }

  /** The ground at y 730 and the first pipe, at x 700 with its height drawn as `h`. */
  method Lay(art: Sprites, h: int) returns (base: Ground.Base, pipes: seq<Pipe>)
    requires MIN_HEIGHT <= h < MAX_HEIGHT
    ensures PipeStates(pipes) == [Placed(FIRST_PIPE_X, h, art.pipeWidth, art.pipeHeight)]
    ensures fresh(base) && base.State() == Ground.Tiles(0, art.baseWidth) && base.width == art.baseWidth
    ensures Distinct(pipes) && forall p :: p in pipes ==> fresh(p)
  {
    base := new Ground.Base(FLOOR, art.baseWidth);
    var first := new Pipe(FIRST_PIPE_X, h, art.pipeWidth, art.pipeHeight);
    pipes := [first];
    PipeStatesAre(pipes, [first.State()]);
  }

  /**
   * One generation: a bird per genome at (230, 350) with fitness 0, the
   * ground, one pipe at x 700; then the loop runs ticks while a bird is left.
   * heights[0] stands for the first pipe's random height and heights[i] for
   * that of a pipe spawned in tick i; `quitAt` is the tick at which the
   * window is closed. Every genome ends between -0.9 and 0.1 per tick plus
   * 5 per point, and the score is at most the number of ticks.
   */
  method EvalGenomes<N>(nets: seq<N>, activate: (N, Observation) -> real,
                        collide: (BirdState, PipeState) -> bool, art: Sprites, heights: seq<int>, quitAt: nat)
    returns (fitness: array<real>, score: int, ticks: nat, survivors: nat)
    requires |heights| > quitAt && Drawable(heights)
    ensures fitness.Length == |nets|
    ensures ticks <= quitAt && (ticks < quitAt ==> survivors == 0)
    ensures 0 <= score <= ticks
    ensures forall g :: 0 <= g < |nets| ==>
      SURVIVAL_REWARD - COLLISION_PENALTY <= fitness[g] <= SURVIVAL_REWARD * ticks as real + PASS_BONUS * score as real
  {
    var birds, ge, base, pipes;
    birds, ge, fitness, base, pipes := Setup(nets, art, heights[0]);
    StartBounded(nets, art, heights[0]);
    score, ticks, survivors := Play(birds, nets, ge, fitness, pipes, base, activate, collide, art, heights, quitAt,
                                    Start(nets, art, heights[0]));
  }

  /**
   * `while run and len(birds) > 0`, from the world `w` of the objects at the
   * start of a generation: ticks run until no bird is left or the window is
   * closed at tick `quitAt`.
   */
  method Play<N>(birds: seq<Bird>, nets: seq<N>, ge: seq<nat>, fitness: array<real>, pipes: seq<Pipe>,
                 base: Ground.Base, activate: (N, Observation) -> real, collide: (BirdState, PipeState) -> bool,
                 art: Sprites, heights: seq<int>, quitAt: nat, ghost w: World<N>)
    returns (score: int, ticks: nat, survivors: nat)
    requires |heights| > quitAt && Drawable(heights)
    requires Distinct(birds) && Distinct(pipes)
    requires w == World(States(birds), nets, ge, fitness[..], PipeStates(pipes), 0)
    requires Invariant(w) && Bounded(w, 0)
    modifies (set b | b in birds), (set p | p in pipes), fitness, base
    ensures ticks <= quitAt && (ticks < quitAt ==> survivors == 0)
    ensures 0 <= score <= ticks
    ensures forall g :: 0 <= g < fitness.Length ==>
      SURVIVAL_REWARD - COLLISION_PENALTY <= fitness[g] <= SURVIVAL_REWARD * ticks as real + PASS_BONUS * score as real
  {
    var birds', nets', ge', pipes' := birds, nets, ge, pipes;
    ghost var cur := w;
    score := 0;
    ticks := 0;
    while ticks < quitAt && |birds'| > 0
      invariant ticks <= quitAt
      invariant Distinct(birds') && Distinct(pipes')
      invariant forall b :: b in birds' ==> b in birds
      invariant forall p :: p in pipes' ==> p in pipes || fresh(p)
      invariant cur == World(States(birds'), nets', ge', fitness[..], PipeStates(pipes'), score)
      invariant Invariant(cur) && Bounded(cur, ticks)
      decreases quitAt - ticks
    {
      birds', nets', ge', pipes', score, cur := Round(birds', nets', ge', fitness, pipes', score, base,
                                                      activate, collide, art, heights[ticks + 1], ticks, cur);
      ticks := ticks + 1;
    }
    survivors := |birds'|;
    FitnessBounds(cur, ticks);
  }
}
