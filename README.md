# Flappy Bird population simulation, modelled in Dafny

This project models the game logic of a Flappy Bird clone whose birds are
flown by NEAT neural networks, one bird per genome. It models the two
source files, `flappy_bird_doing.py` and `PRIMEIRA_PARTE.py`. The second
repeats the `Bird` and `Pipe` classes of the first, line for line (the same
line numbers, 53-256), so one model serves both; the table below cites
either file for those lines.

- **`Birds`** (`bird.dfy`) is the bird.
  - `jump` gives it a fixed upward velocity.
  - `move` applies `vel·t + 1.5·t²`. The result is capped at 16 from above only, and 2 further up when negative. `move` also updates the tilt.
  - The frame-selection part of `draw` steps the wing counter through frames 0, 1, 2, 1, unless the bird is diving.
- **`Pipes`** (`pipe.dfy`) is a pipe pair. It has a gap height drawn from [50, 450), a 200-pixel opening, and a scroll of 5 pixels per tick.
- **`Ground`** (`base.dfy`) is the scrolling ground. Its two tiles move left together, and a tile that leaves the screen is put back one width to the right of the other.
- **`Sweeps`** (`sweep.dfy`) is the index bookkeeping of the two removal sweeps. They pop birds from `birds`, `nets` and `ge` while iterating over `birds`, so the bird after a popped one is not examined in that pass. `Kept` gives the positions that survive such a pass.
- **`Simulation`** (`simulation.dfy`) states one tick of the generation loop on values.
  - `TickSpec` maps a `World` (the live birds, networks and genome ids, every genome's fitness, the pipes and the score) to the world after the tick.
  - The lemmas prove what a tick does and keeps: rewards, penalties, scoring, pass marking, pipe placement, and the population never growing.
- **`Population`** (`population.dfy`) is the imperative generation loop over the `Bird`, `Pipe` and `Base` objects and a `fitness` array.
  - `Tick` is proved equal to `TickSpec`.
  - `EvalGenomes` runs ticks until no bird is left or the window is closed.

The networks are an abstract function `activate` from an observation to a real output; a bird jumps when the output exceeds 0.5. The pixel-mask collision test is an abstract predicate `collide`. Random pipe heights are inputs in [50, 450). Python floats are exact `real`s.

## Model

| member | source | states |
|---|---|---|
| Birds.Bird.constructor | flappy_bird_doing.py:63-77 | a new bird is at the given position with tilt 0, tick count 0, velocity 0, jump height equal to its y, and wing counter and frame 0 |
| Birds.HatchedIsValid | flappy_bird_doing.py:63-77 | a new bird is in the valid states: velocity 0 or -10.5, tilt in (-110, 25], wing counter in 0..20, frame 0..2 |
| Birds.Bird.Jump | flappy_bird_doing.py:86-88 | jump sets velocity -10.5, tick count 0 and jump height to the current y, and changes nothing else |
| Birds.Jumped | flappy_bird_doing.py:86-88 | the state after a jump has velocity -10.5, tick count 0 and jump height y; every other field is unchanged |
| Birds.JumpKeepsPositionAndTilt | PRIMEIRA_PARTE.py:86-88 | a jump leaves x, y and tilt unchanged, and jumping twice is the same as jumping once |
| Birds.Displacement | flappy_bird_doing.py:106-113 | the displacement is at most 16 and exactly 16 when the raw value reaches 16; a raw value in [0, 16) is taken as it is; it is negative exactly when the raw value is, and then it is the raw value less 2 |
| Birds.UpwardMoveUncapped | PRIMEIRA_PARTE.py:106-113 | there is no cap upwards: for any velocity below -1.5 the first displacement is the raw value less 2, however large |
| Birds.JumpArcBounded | flappy_bird_doing.py:106-113 | along the arc after a jump every displacement lies in [-20, 16] |
| Birds.JumpArcPeak | flappy_bird_doing.py:106-113 | the third and fourth ticks after a jump move the bird up by exactly 20, more than the 16 of the downward cap |
| Birds.Bird.Move | flappy_bird_doing.py:103-123 | move advances the tick count, the y and the tilt as `Moved` says, and leaves x, velocity, jump height and the wing counter unchanged |
| Birds.Moved | flappy_bird_doing.py:103-123 | the tick count rises by exactly 1; y changes by the displacement of that tick, so it never increases by more than 16; only y, tick count and tilt change |
| Birds.MoveBounded | flappy_bird_doing.py:103-115 | from any valid state, one move changes y by at least -20 and at most +16 |
| Birds.FirstMoveAfterJump | PRIMEIRA_PARTE.py:86-120 | the first move after a jump lifts the bird by exactly 11 (-10.5 + 1.5 - 2), sets the tilt to 25 and the tick count to 1 |
| Birds.TiltBounded | flappy_bird_doing.py:117-123 | the tilt stays in (-110, 25]; it is set to exactly 25 when the move goes up or the bird ends less than 50 below the height of its last jump; otherwise it drops by 20 if it was above -90 and else stays; it never decreases in any other way |
| Birds.StepsKeepValid | flappy_bird_doing.py:86-150 | jump, move and the draw step each keep a bird in its valid states |
| Birds.Bird.Draw | flappy_bird_doing.py:132-150 | the draw step changes only the wing counter and frame, as `Drawn` says |
| Birds.Drawn | flappy_bird_doing.py:132-150 | the draw step changes only the wing counter and frame; it keeps the counter in 0..20 and the frame in 0..2 |
| Birds.DrawFollowsCycle | flappy_bird_doing.py:132-146 | outside a dive the frame follows 0, 1, 2, 1 over counter values 1-5, 6-10, 11-15, 16-20, and the counter wraps from 20 to 0 |
| Birds.DrawWhileDiving | PRIMEIRA_PARTE.py:147-150 | at tilt -80 or below the frame is 1 and the counter is held at 10 |
| Pipes.Pipe.constructor | flappy_bird_doing.py:186-204 | a new pipe is at x, unpassed, with the gap height `h` set as `set_height` sets it |
| Pipes.Placed | flappy_bird_doing.py:186-213 | a newly created pipe keeps its 200-pixel gap, has a height in [50, 450), sits at the given x and is not passed |
| Pipes.Pipe.SetHeight | flappy_bird_doing.py:206-213 | set_height with the draw `h` changes height, top and bottom as `WithHeight` says |
| Pipes.WithHeight | flappy_bird_doing.py:211-213 | after set_height, height is `h`, bottom - height is 200 and top is height less the pipe image height; no other field changes |
| Pipes.Pipe.Move | flappy_bird_doing.py:215-220 | move changes the pipe as `Shifted` says |
| Pipes.Shifted | flappy_bird_doing.py:220 | x decreases by exactly 5 and nothing else (height, top, bottom, passed) changes |
| Pipes.ShiftKeepsGap | PRIMEIRA_PARTE.py:220 | an illustration of `Shifted`: scrolling keeps the 200-pixel gap and the opening between top and bottom |
| Pipes.ShiftedByMovesLeft | flappy_bird_doing.py:220 | k moves shift the pipe left by exactly 5·k and change nothing else |
| Ground.Base.constructor | flappy_bird_doing.py:268-276 | the tiles start at 0 and `width`, side by side |
| Ground.Base.Move | flappy_bird_doing.py:278-289 | the tiles move as `Scrolled` says, and stay side by side and on screen when they were before and the image is wider than 5 |
| Ground.Scrolled | flappy_bird_doing.py:283-289 | a tile moves left by exactly 5 unless that leaves it wholly off screen; then the first is put one width after the moved second, and the second one width after the new first |
| Ground.ScrollWrap | flappy_bird_doing.py:283-289 | in a tick where a tile of side-by-side tiles wraps, the other moves left by exactly 5 and the wrapped one lands one width after it |
| Ground.ScrollKeepsTiled | flappy_bird_doing.py:283-289 | with an image wider than the step, a scroll keeps the tiles exactly one width apart and neither wholly off screen |
| Ground.ScrollWithoutWrap | flappy_bird_doing.py:283-284 | when no tile leaves the screen, both tiles move left by exactly 5 |
| Sweeps.Kept | flappy_bird_doing.py:462-467 | the positions surviving a removal pass are increasing, within the list, and no more than the list holds |
| Sweeps.KeptCharacterised | flappy_bird_doing.py:462-467 | a position survives exactly when it is not hit, or when the position before it was popped (and so it was never examined) |
| Sweeps.UnhitIsKept | flappy_bird_doing.py:462-467 | a bird that is not hit is never removed |
| Sweeps.NeighbourOfRemovedIsKept | flappy_bird_doing.py:462-467 | a removed bird was hit, and the bird after it survives the pass whether hit or not |
| Sweeps.AdjacentHitsKeepSecond | flappy_bird_doing.py:462-467 | of two adjacent hit birds where the first is the first bird or follows a bird that stayed, the first is removed and the second stays |
| Sweeps.RunsOfHitsAlternate | flappy_bird_doing.py:462-467 | examples of `AdjacentHitsKeepSecond` on fixed lists: in runs of two hits, three hits, and three hits after a clear bird, every other hit bird stays |
| Sweeps.KeptExactWithoutAdjacentHits | flappy_bird_doing.py:462-467 | when no two adjacent birds are hit, a pass removes exactly the hit birds |
| Simulation.Start | flappy_bird_doing.py:396-412 | the first world of a generation satisfies the loop invariant, has one bird and fitness 0 per genome, every genome alive, and score 0 |
| Simulation.Observe | flappy_bird_doing.py:442-448 | the network sees the bird's y and two non-negative distances; with the bird above the gap the bottom distance is the top one plus 200, below it the reverse |
| Simulation.Flown | flappy_bird_doing.py:439-453 | a bird's turn keeps its x, image and animation counter, and leaves it at the y and tilt of its move |
| Simulation.PipeIndex | flappy_bird_doing.py:427-433 | the watched pipe is 1 exactly when there is a bird, more than one pipe, and the first bird is past the first pipe's right edge; otherwise 0, so always a valid index |
| Simulation.FlapsIffConfident | flappy_bird_doing.py:439-453 | a bird jumps in its turn exactly when its network's output for the watched pipe exceeds 0.5; the jump keeps the y and tilt of its move |
| Simulation.Survivors | flappy_bird_doing.py:459-467 | the birds alive after the collision sweeps of all pipes are an increasing choice of the birds that entered the loop |
| Simulation.SurvivorsKeepClear | flappy_bird_doing.py:459-467 | a bird that no moved pipe touches survives the pipe loop |
| Simulation.Advanced | flappy_bird_doing.py:460-474 | in the pipe loop a pipe moves left by 5 and is marked passed exactly when it was passed already or is now behind x 230; nothing else changes |
| Simulation.PassedStaysPassed | flappy_bird_doing.py:472-474 | the passed flag only goes from false to true; a passed pipe never triggers the pass test again |
| Simulation.AdvancedTimes | flappy_bird_doing.py:460 | after k pipe loops a pipe has moved left by exactly 5·k and is where `ShiftedBy` puts it after k moves, except that it may have been marked passed; a passed pipe stays passed |
| Simulation.PassesExactlyOnce | flappy_bird_doing.py:460-474 | an unpassed pipe ahead of the birds triggers the pass test in exactly one tick, after `(x - 230) / 5` ticks, and is marked passed from then on |
| Simulation.Passes | flappy_bird_doing.py:472 | the pass test fires exactly on an unpassed pipe whose x, before it moves, is below 235 |
| Simulation.OnScreen | flappy_bird_doing.py:483-484 | removal keeps exactly the pipes not wholly off the left edge |
| Simulation.OnScreenAppend | flappy_bird_doing.py:483-484 | removing off-screen pipes from a concatenation removes them from each part |
| Simulation.NextPipes | flappy_bird_doing.py:476-484 | after appending and removing, there is at most one pipe more than before, none is wholly off screen, and when a pipe was passed the last one is a fresh pipe at x 600 with the drawn height |
| Simulation.OutOfBounds | flappy_bird_doing.py:487 | a bird stays exactly when -50 <= y < 740 - its image height |
| Simulation.TickSpec | flappy_bird_doing.py:427-492 | a tick keeps one fitness per genome and raises the score by zero or one |
| Simulation.Scored | flappy_bird_doing.py:438-480 | each genome's fitness after a tick is its fitness before plus 0.1 if alive, minus 1 if it collided, plus 5 if it crossed and some pipe was passed |
| Simulation.TickRewards | flappy_bird_doing.py:435-480 | a genome alive at the start of a tick earns 0.1, then loses 1 if it collided, or else earns 5 when some pipe was passed; the fitness of a genome already removed stays put |
| Simulation.TickFitnessBounds | flappy_bird_doing.py:435-490 | a tick adds at most 0.1 plus 5 per point scored to any fitness; a surviving genome gains at least 0.1 and a removed one loses at most 0.9 |
| Simulation.TickScores | flappy_bird_doing.py:469-481 | the score rises by at most one per tick, and by one exactly when some pipe is passed, however many birds are alive; then the newest pipe is a fresh one at x 600 |
| Simulation.TickNeverGrows | flappy_bird_doing.py:459-490 | the three parallel lists stay equal in length and never grow; every genome alive after the tick was alive before and survived the collision sweeps |
| Simulation.LandedWithinCrossed | flappy_bird_doing.py:459-490 | the bounds sweep keeps no more birds than the collision sweeps, and those keep no more than were alive |
| Simulation.TickSparesClearBird | flappy_bird_doing.py:459-490 | a bird that no pipe touches and that stays between floor and ceiling is still alive after the tick |
| Simulation.NextPipesOlderPassed | flappy_bird_doing.py:469-484 | if every pipe but the newest was passed before a tick, the same holds after it |
| Simulation.AtMostNewestPasses | flappy_bird_doing.py:469-474 | when every pipe but the newest was passed, only the newest can pass, so the number of pipes passing in a tick is one exactly when some pipe passes, and zero otherwise |
| Simulation.ScoreCountsPasses | flappy_bird_doing.py:469-478 | in a world the loop reaches, a tick raises the score by exactly the number of pipes passed in it, which is at most one |
| Simulation.TickKeepsPipes | flappy_bird_doing.py:457-484 | a tick keeps every pipe well placed, every pipe but the newest passed, and the newest unpassed |
| Simulation.NextPipesWellPlaced | flappy_bird_doing.py:457-484 | after a tick every pipe keeps its gap and a height in [50, 450), a pipe behind the birds is marked passed, and the newest pipe is still unpassed |
| Simulation.TickKeepsBirds | flappy_bird_doing.py:435-492 | after a tick every bird is still at x 230 and in a valid bird state |
| Simulation.TickKeepsInvariant | flappy_bird_doing.py:417-492 | every tick keeps the loop invariant: parallel lists, distinct genomes, birds at x 230 in valid states, well placed pipes, every pipe but the newest passed, an unpassed newest pipe |
| Simulation.TickKeepsFair | flappy_bird_doing.py:435-490 | every tick keeps the floor that a live genome has fitness at least 0 and a removed one at least -0.9 |
| Simulation.StartBounded | flappy_bird_doing.py:396-412 | the first world meets the fitness and score bounds for 0 ticks |
| Simulation.TickKeepsBounded | flappy_bird_doing.py:417-492 | if a world meets the bounds for t ticks, the world after one more tick meets them for t + 1: score at most t + 1 and each fitness in [-0.9, 0.1·(t + 1) + 5·score] |
| Simulation.FitnessBounds | flappy_bird_doing.py:417-492 | a world within the bounds for t ticks has every fitness between -0.9 and 0.1·t + 5·score |
| Population.Decide | flappy_bird_doing.py:435-453 | each live bird earns exactly 0.1, moves, and jumps when its network's output exceeds 0.5; other genomes' fitness is unchanged |
| Population.Steer | flappy_bird_doing.py:427-455 | every bird's new state is its turn in `Flock` with the watched pipe, every live genome earns 0.1, and the ground scrolls once |
| Population.Charge | flappy_bird_doing.py:464 | a collision lowers exactly one genome's fitness by the penalty |
| Population.CullPop | flappy_bird_doing.py:463-467 | popping a hit bird removes one entry from the bird list and keeps the sweep invariant |
| Population.CullStep | flappy_bird_doing.py:462-467 | one iteration of the removal loop keeps the sweep invariant and never lengthens the list |
| Population.Cull | flappy_bird_doing.py:462-467 | a removal pass leaves exactly the positions of `Kept` in birds, nets and ge alike, and charges the penalty once to each removed genome |
| Population.SweepCollisions | flappy_bird_doing.py:462-467 | one pipe's collision sweep extends the survivors of the pipes before it and charges -1 to each bird it removes |
| Population.Settle | flappy_bird_doing.py:469-474 | after its move a pipe is marked passed as `Advanced` says, reported for removal exactly when off screen, and reported as passed exactly when it passes in this tick |
| Population.PipeTurn | flappy_bird_doing.py:459-474 | one pipe's turn of the pipe loop: the move, the collision sweep, the off-screen mark and the pass test |
| Population.PipeLoop | flappy_bird_doing.py:459-474 | the pipe loop visits every pipe in order |
| Population.AdvancePipes | flappy_bird_doing.py:457-474 | after the pipe loop every pipe is advanced; birds, nets and ge hold exactly the collision survivors, each removed genome lost 1, the removal list holds exactly the off-screen pipes, and the pass flag is set exactly when some pipe passed |
| Population.Bonus | flappy_bird_doing.py:479-480 | every live genome gains exactly 5, and no other fitness changes |
| Population.Append | flappy_bird_doing.py:481 | a new pipe at x 600 is appended at the end; the existing pipes are kept in order |
| Population.Spawn | flappy_bird_doing.py:476-481 | on a pass tick the score rises by one, every live genome gains 5 and a new pipe at x 600 is appended; otherwise nothing changes |
| Population.RemovePipes | flappy_bird_doing.py:483-484 | removal leaves the pipe list without the marked pipes, keeping the order of the rest |
| Population.PipeStatesWithout | flappy_bird_doing.py:483-484 | removing the marked pipe objects is removing the off-screen pipe states |
| Population.Pruned | flappy_bird_doing.py:476-484 | spawning and then removing yields exactly the pipes of `NextPipes` |
| Population.Replenish | flappy_bird_doing.py:476-484 | spawn, score and removal together give the pipes of `NextPipes`, the new score, and the bonus on a pass tick |
| Population.SweepBounds | flappy_bird_doing.py:486-490 | the bounds sweep leaves exactly the positions `Kept` keeps among birds on the floor or above the ceiling, with no fitness change |
| Population.DrawAll | flappy_bird_doing.py:324-357 | every remaining bird advances its wing animation as `Drawn` says |
| Population.Land | flappy_bird_doing.py:486-492 | the bounds sweep and the draw step leave the landed birds, animated, with their nets and genomes, and leave fitness unchanged |
| Population.TickFitness | flappy_bird_doing.py:438-480 | the reward, collision and bonus steps of a tick compose to `Scored` |
| Population.PenalisedTwice | flappy_bird_doing.py:459-467 | two successive collision sweeps charge each removed genome exactly once |
| Population.Cross | flappy_bird_doing.py:457-484 | the pipe loop, spawn and removal leave the collision survivors, the fitness of `Scored`, the pipes of `NextPipes` and the new score |
| Population.Rest | flappy_bird_doing.py:457-492 | everything after the birds' turns: survivors, fitness, pipes and score as `TickSpec` states them |
| Population.Tick | flappy_bird_doing.py:427-492 | one pass of the loop body takes the world of the objects to exactly `TickSpec` of the world before, and scrolls the ground once |
| Population.Round | flappy_bird_doing.py:417-492 | one pass of the loop body turns the world into `TickSpec` of it, and keeps the loop invariant and the fitness bounds for one more tick |
| Population.Hatch | flappy_bird_doing.py:396-408 | one new bird per genome, all distinct, each at (230, 350) |
| Population.Lay | flappy_bird_doing.py:410-411 | the ground starts tiled at 0 and one pipe stands at x 700 |
| Population.Setup | flappy_bird_doing.py:396-412 | the objects of a new generation make up the world `Start`: birds at (230, 350), every genome alive with fitness 0, one pipe at x 700 |
| Population.Play | flappy_bird_doing.py:417-492 | the loop stops only when no bird is left or the window is closed; the score is at most the tick count, and every fitness lies in [-0.9, 0.1·ticks + 5·score] |
| Population.EvalGenomes | flappy_bird_doing.py:377-497 | a generation ends with no bird left unless the window was closed; the score is at most the number of ticks; every genome's fitness lies in [-0.9, 0.1·ticks + 5·score] |

## Left out

- Rendering and window I/O are not modelled: blits, `blitRotateCenter`, `draw_window` except each bird's frame step, fonts, image loading and `pygame.display`. Image sizes are constant parameters (`Sprites`). The floor test at flappy_bird_doing.py:487 uses the height of the bird's current frame. The model assumes the three frames have one height, the constant `Sprites.birdHeight`, and does not model a frame-dependent floor test.
- `Pipe.collide` and `Bird.get_mask` compare pixel masks through pygame. They are the abstract predicate `collide`, and the `round(bird.y)` they use goes with them.
- `random.randrange(50, 450)` is an input: `h` for one pipe, `heights` for a generation, each in [50, 450).
- NEAT is an abstract function `activate` returning one real: network creation, `Population`, reporters, `run` and `pickle`. A genome is its index into `fitness`.
- The global `gen` counter only feeds the display.
- `clock.tick(30)` is a frame delay.
- The quit event exits the whole program. The model stops the loop at tick `quitAt` instead.
- `PRIMEIRA_PARTE.py` `main` and `draw_window` (259-284) are a pygame event loop.
- Floating point: the constants -10.5, 1.5, 0.1 and the rest are exact reals. No claim is made about float rounding.
- No lower bound of -16 on a tick's displacement is modelled, because the code has none: the cap of 16 at flappy_bird_doing.py:109-110 bounds the displacement from above only, and lines 112-113 take 2 more from an upward displacement; `Birds.JumpArcPeak` shows -20 is reached.
- Population.Play: states bounds on the score and fitness after the loop, not their exact values. The exact value of each tick is stated by `Population.Tick`.
- Population.EvalGenomes: states the same bounds as `Population.Play`, not exact fitness values.
