# Particle field and FPS badge, modelled in Dafny

This project models two components of a portfolio site.

**The particle background.**
- Initialisation lays particles out on a regular lattice with 80 px spacing, column by column.
- Each particle is registered in a spatial bucket index, a dictionary from the cell key `"gx,gy"` to the particles of that cell.
- An animation callback is throttled to one frame per frame period.
- On an admitted frame, every particle takes one motion step (spring, damping, integration).
- A line pass then joins each particle to the particles of its 3 x 3 cell window that are between 0 and 100 px away.

**The FPS badge.**
- A sampler counts animation callbacks and publishes a rounded rate once a window of at least a second has passed.
- Shift+F shows or hides the badge.
- The published rate picks one of three colours.

## Modules

| file | module | what it holds |
|---|---|---|
| `arith.dfy` | `Arith` | two arithmetic helpers: multiplication monotonicity, and uniqueness of quotient and remainder |
| `lattice.dfy` | `Lattice` | the `Particle` record, `Math.ceil`/`Math.floor` as used by initialisation, and the lattice `Layout` as a function of the viewport |
| `spatial_grid.dfy` | `SpatialGrid` | the bucket index as a value, the index built by registering the particles in order (`IndexOf`), when an index is exact, and the 3 x 3 neighbour query (`Window`) |
| `frame_gate.dfy` | `FrameGate` | the throttle decision (`Gate`) and its behaviour over a sequence of callbacks |
| `particle_background.dfy` | `ParticleBackground` | the motion step, the pair filter, the line pass as a function, and the class `ParticleField` with the component's imperative state and methods |
| `fps_counter.dfy` | `FpsCounter` | the sampler as a state-transition function, the key toggle, the colour tiers, and the class `FpsCounter` with the component's state |

## Modelling decisions

**Particles and the index.**
- The particle array is a `seq<Particle>` field of `ParticleField`.
- A bucket holds particle *positions* in that array, not copies.
- Source code that reaches a particle through the index and source code that reaches it through the array therefore see the same particle, as JavaScript object references do.
- The identity test `particle === otherParticle` becomes equality of positions.
- The string key `"gx,gy"` is modelled as the integer pair `(gx, gy)`. Distinct pairs give distinct strings, so nothing is lost.

**Numbers.**
- Positions and velocities are `real`: exact arithmetic, not IEEE doubles.
- The viewport size is a whole number of pixels. `Math.ceil(w / 80)` is `CeilDiv`, and `Math.floor(x / cellSize)` is `CellOf`.
- The remainder in the frame gate is taken of a non-negative value there. JavaScript's truncating `%` and Dafny's Euclidean `%` therefore agree.

**Time.**
- Time is in integer units.
- The frame period is a positive constructor parameter of `ParticleField`, because the real value, 1000/60 ms, is not an integer.
- The FPS sampler uses integer milliseconds.
- `Math.round(n * 1000 / delta)` is `RoundDiv`, read as the nearest integer with halves rounded up.

**Host calls.**
- `performance.now()` and the animation-frame timestamp are parameters.

## Model

| member | source | states |
|---|---|---|
| Lattice.CeilDiv | src/app/components/ParticleBackground.tsx:51-52 | the result is the least whole number of spacings covering the viewport side: r·80 ≥ a, and (r−1)·80 < a when r > 0 |
| Lattice.Layout | src/app/components/ParticleBackground.tsx:46-73 | the rebuilt array has Cols·Rows particles, and the one at position k is the lattice point of column k / rows and row k % rows |
| Lattice.LayoutAt | src/app/components/ParticleBackground.tsx:50-72 | the particle at position i·rows + j exists, has base (80·i, 80·j), sits on its base at rest (x = baseX, y = baseY, vx = vy = 0), and records cell (i, j) since the cell size equals the spacing |
| Lattice.Viewport800x600 | src/app/components/ParticleBackground.tsx:50-52 | an 800 x 600 viewport gives 10 columns, 8 rows and 80 particles |
| SpatialGrid.IndexOfIsExact | src/app/components/ParticleBackground.tsx:69-81 | registering the particles in order puts every particle in the bucket of its own cell and in no other; buckets are non-empty and list positions in increasing order, hence without repeats |
| SpatialGrid.IndexEntries | src/app/components/ParticleBackground.tsx:69-81 | after registering every particle, the bucket sizes add up to the particle count |
| SpatialGrid.IndexOfKeysOnly | src/app/components/ParticleBackground.tsx:66-67 | the index depends only on each particle's recorded cell, so particles that moved but kept their cells have the same index |
| SpatialGrid.NeighbourCellAt | src/app/components/ParticleBackground.tsx:85-87 | the cell at offset (dx, dy) is visited at step 3(dx+1)+(dy+1): dx outermost, dy innermost, both from −1 to 1 |
| SpatialGrid.NeighbourCellsExact | src/app/components/ParticleBackground.tsx:85-87 | the visited cells are exactly the cells touching or equal to the centre cell |
| SpatialGrid.WindowMembers | src/app/components/ParticleBackground.tsx:83-94 | against an exact index, the query returns particle k iff k is a particle whose recorded cell touches the query particle's cell |
| SpatialGrid.WindowDistinct | src/app/components/ParticleBackground.tsx:83-94 | against an exact index, the query lists no particle twice |
| SpatialGrid.LatticeBuckets | src/app/components/ParticleBackground.tsx:53-81 | after initialisation the bucket of cell (i, j) exists and holds exactly the particle at position i·rows + j |
| SpatialGrid.LatticeCells | src/app/components/ParticleBackground.tsx:53-81 | after initialisation there is a bucket for a cell iff the cell lies in the lattice |
| FrameGate.Gate | src/app/components/ParticleBackground.tsx:105-112 | a callback is skipped iff less than a period has passed; an admitted one moves the anchor forward by a whole, positive number of periods, to within one period of now and not past it |
| FrameGate.ReplayAdvances | src/app/components/ParticleBackground.tsx:104-112 | over any sequence of callbacks, each admitted frame advances the anchor by at least one period, and the anchor never passes the latest callback time |
| FrameGate.AdmissionRate | src/app/components/ParticleBackground.tsx:104-112 | callbacks up to time h admit at most (h − last) / period frames, however often they fire |
| ParticleBackground.Advance | src/app/components/ParticleBackground.tsx:116-138 | the step writes only vx, vy, x and y; base point and recorded cell are untouched |
| ParticleBackground.RestIsFixed | src/app/components/ParticleBackground.tsx:129-138 | a particle at rest on its base point with no repulsion stays where it is |
| ParticleBackground.LinksMembers | src/app/components/ParticleBackground.tsx:149-156 | particle k links to j iff j is in its neighbour list, j is a particle other than k, and their squared distance is strictly between 0 and 100² |
| ParticleBackground.CloseSymmetric | src/app/components/ParticleBackground.tsx:152-156 | the distance filter gives the same answer for (p, q) and (q, p) |
| ParticleBackground.LinePassLinks | src/app/components/ParticleBackground.tsx:146-166 | the pass over the first n particles draws (k, j) iff k < n and j is one of particle k's links |
| ParticleBackground.IndexQueriesInRange | src/app/components/ParticleBackground.tsx:83-94 | a query against the index of the array only returns particles of the array |
| ParticleBackground.SelfInWindow | src/app/components/ParticleBackground.tsx:147-150 | against an exact index, a particle's query contains the particle itself, which is why the pass skips it |
| ParticleBackground.LinePassMembers | src/app/components/ParticleBackground.tsx:146-166 | against an exact index, a frame draws (k, j) iff k ≠ j are particles in touching cells whose squared distance is strictly between 0 and 100² |
| ParticleBackground.LinePassSymmetric | src/app/components/ParticleBackground.tsx:146-166 | against an exact index, every line of a frame is drawn from both of its ends |
| ParticleBackground.ParticleField.constructor | src/app/components/ParticleBackground.tsx:20-102 | the component starts with no particles, an empty index, cell size 100 and the anchor at the mount time |
| ParticleBackground.ParticleField.AddToGrid | src/app/components/ParticleBackground.tsx:75-81 | particle k is appended to the end of the bucket for its own cell, the bucket is created if absent, and every other bucket is unchanged |
| ParticleBackground.ParticleField.InitParticles | src/app/components/ParticleBackground.tsx:46-73 | whatever the previous state, the array becomes Layout(width, height) and the index becomes the index of that array, with cell size 80; re-initialising with the same viewport therefore gives the same array and index |
| ParticleBackground.ParticleField.GetNearbyParticles | src/app/components/ParticleBackground.tsx:83-94 | the result is the concatenation of the existing buckets of the nine window cells, in visiting order; missing buckets add nothing |
| ParticleBackground.ParticleField.Step | src/app/components/ParticleBackground.tsx:116-138 | every particle is replaced by its one-frame advance and the index still is the index of the array |
| ParticleBackground.ParticleField.LinksOf | src/app/components/ParticleBackground.tsx:149-165 | the inner loop keeps exactly the links of particle k, in neighbour-list order |
| ParticleBackground.ParticleField.LinesAt | src/app/components/ParticleBackground.tsx:147-165 | particle k draws one line to each of its links, in order |
| ParticleBackground.ParticleField.DrawLines | src/app/components/ParticleBackground.tsx:146-166 | the lines of a frame are each particle's lines, in array order |
| ParticleBackground.ParticleField.Animate | src/app/components/ParticleBackground.tsx:104-166 | a callback draws iff at least a period has passed; a skipped one changes nothing; a drawn one re-anchors as Gate says, advances every particle, and draws the line pass; the index is never changed |
| FpsCounter.RoundDiv | src/app/components/FPSCounter.tsx:25 | the result is the integer nearest to num / den, with halves rounded up |
| FpsCounter.Tick | src/app/components/FPSCounter.tsx:19-29 | a callback counts one frame; once at least 1000 ms have passed the rate becomes round(frames·1000 / delta), the count resets to 0 and the window restarts now; otherwise the rate and window start are unchanged |
| FpsCounter.QuietWindow | src/app/components/FPSCounter.tsx:20-24 | callbacks within one window only add one each to the count |
| FpsCounter.RateAtMostFrames | src/app/components/FPSCounter.tsx:24-25 | a published rate lies between 0 and the number of frames counted in its window |
| FpsCounter.Toggled | src/app/components/FPSCounter.tsx:11-14 | the visibility flips iff the key is "F" with Shift held |
| FpsCounter.ToggleTwice | src/app/components/FPSCounter.tsx:11-14 | the same key pressed twice restores the visibility |
| FpsCounter.FpsTier | src/app/components/FPSCounter.tsx:43 | emerald iff fps ≥ 55, amber iff 30 ≤ fps < 55, red iff fps < 30 |
| FpsCounter.TextColour | src/app/components/FPSCounter.tsx:43 | the text class is the class of the rate's tier |
| FpsCounter.DotColour | src/app/components/FPSCounter.tsx:48 | the dot class follows the same three-way split as the text |
| FpsCounter.View | src/app/components/FPSCounter.tsx:41-50 | nothing is rendered iff the badge is hidden; otherwise the badge shows the rate with the dot and text classes of its tier |
| FpsCounter.FpsCounter.constructor | src/app/components/FPSCounter.tsx:4-7 | the counter starts with rate 60, hidden, count 0 and the window opened at the creation time |
| FpsCounter.FpsCounter.UpdateFps | src/app/components/FPSCounter.tsx:19-32 | one callback moves the sampler state exactly as Tick says |
| FpsCounter.FpsCounter.HandleKeyPress | src/app/components/FPSCounter.tsx:11-15 | the visibility becomes Toggled(old visibility, key) |
| FpsCounter.FpsCounter.Render | src/app/components/FPSCounter.tsx:41-54 | the component renders nothing iff hidden; otherwise it shows the current rate with its text class and its dot class |

## Left out

- The repulsion from the pointer (ParticleBackground.tsx:117-127) is not modelled. It needs `Math.sqrt`, `Math.atan2`, `Math.cos` and `Math.sin`. Instead, `ParticleBackground.Advance` and `ParticleBackground.ParticleField.Step` take the impulse for each particle as an input.
- `ParticleBackground.Advance`: its contract states only which fields the step writes, not the numeric values. The spring 0.03, damping 0.92 and integration appear only in its body, in exact real arithmetic rather than floating point.
- `ParticleBackground.Close`: the filter `dist < 100 && dist > 0` is stated on the squared distance, to avoid `Math.sqrt`. For exact reals the two tests are equivalent.
- The line opacity (ParticleBackground.tsx:160) and every canvas call are not modelled: clearing, arcs, fill and stroke styles, moveTo/lineTo. `DrawLines` returns the list of segments it would stroke.
- Canvas sizing is not modelled: the device-pixel-ratio scaling and the resize listener that calls initialisation. `InitParticles` takes the viewport width and height as parameters.
- The mousemove listener only stores the pointer position used by the repulsion. It is not modelled.
- Scheduling is not modelled: `requestAnimationFrame`, `cancelAnimationFrame`, and listener registration and removal (ParticleBackground.tsx:168-182, FPSCounter.tsx:17, 31-38). The caller invokes `Animate` and `UpdateFps` once per callback.
- `ParticleBackground.ParticleField.Animate`: the frame period is a positive integer parameter, not 1000/60 ms. Time is integer rather than fractional milliseconds.
- In the source the step and the dot drawing share one `forEach`. The model runs all the steps first and leaves the dots out. Since the dots do not affect state, this changes no result.
- React's asynchronous state updates (`setFps`, `setShowCounter`) are treated as immediate assignments.
- `FpsCounter.FpsCounter.Render`: only the rate and the colour classes are modelled. The fixed layout classes and the "Shift + F to hide" caption are constant markup.
- The window of an existing particle is not claimed to contain every particle within 100 px. Cells are 80 px, smaller than the 100 px line radius, and recorded cells are never refreshed after particles move. Only the membership facts above hold.
- The page loader, the animation-library wrappers and the static sections of the site are outside this model.
