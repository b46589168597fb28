# Klein bottle viewer: a Dafny model of its discrete core

The program samples a Klein-bottle-like surface in four dimensions on a
`steps_v x steps_u` grid. Every frame, it rotates the surface through the six
coordinate planes of 4D space and draws it. It can draw a decimated wireframe,
a quad mesh, or both. Five keyboard toggles control animation, the two render
passes and two colouring modes. The whole program is `main.cxx`.

This model keeps the part of the program that is not floating-point
arithmetic or graphics calls:

- **Topology** (`topology.dfy`):
  - the grid resolution (`grid_steps_*`, `sub_steps_*` and their products `steps_u`, `steps_v`);
  - grid cells;
  - the row-major traversal of the grid;
  - the column reversal `(steps_u - i) % steps_u`, which glues the last row to row 0 with a twist.
- **Sampler** (`sampler.dfy`): `init`. It fills a 2D array with one surface point per cell. The surface mapping `makePoint` is a parameter.
- **Matrix4** (`matrix4.dfy`): 4 x 4 matrices over exact reals. It covers identity, element assignment, product, scaling and transpose, with associativity and the orthogonality of products.
- **Rotation** (`rotation.dfy`):
  - the `pairs` and `speed` tables;
  - each elementary plane rotation, as "the identity except four entries";
  - the composite of the six rotations, multiplied in on the right in table order;
  - the per-frame angle advance.
- **Render** (`render.dfy`): the two render passes as index geometry. Each vertex is the grid cell whose transformed point is drawn there.
  - `drawGrid` emits line strips closed across the seam, then line loops.
  - `drawSurface` emits one quad per cell.
  - Lemmas show that the mesh closes up along u, along v and across the twisted seam. Others show that the wireframe runs along the edges of the mesh.
- **Input** (`input.dfy`): the toggle machine of `events` as pure functions over an event queue.
- **Scene** (`scene.dfy`): what a frame shows.
  - the five indicators of `flag`;
  - one mesh per render pass, with the matrix applied to its points and its colouring mode.
- **Demo** (`demo.dfy`): class `App` holds the program's global state:
  - the flags;
  - the `angle` array;
  - `dt` and `t_base`;
  - `mat`.

  Its methods are `events`, `calcRotationMatrix`, `drawGrid`, `drawSurface` and `step`. Each one is proved against the functions above.

The trigonometry is not modelled. The cosine and sine used by
`calcRotationMatrix` are function parameters, so that a frame is determined by
the angles and those two functions. Grid points are opaque values of a type
parameter.

## Model

| member | source | states |
|---|---|---|
| Topology.BuildResolutions | main.cxx:7-19 | both builds' constants are positive: 256 x 192 samples in the optimised build, 72 x 48 in the debug build |
| Topology.Reverse | main.cxx:164 | the reversed column of `i < n` lies in `[0, n)` and is the additive inverse of `i` modulo `n` |
| Topology.ReverseZero | main.cxx:164 | reversal sends column 0 to column 0 |
| Topology.ReverseInvolutive | main.cxx:197-198 | reversing twice gives back the column |
| Topology.ReverseSucc | main.cxx:192-198 | the reversal of column `i + 1` (mod n), plus one, is the reversal of `i`, so the seam glues the edge (i, i+1) to the same edge traversed backwards |
| Topology.ReverseMultiple | main.cxx:156-164 | the reversal of the strip column `k * sub` is the strip column `Reverse(grid, k) * sub`, so strips close onto strips |
| Topology.MulStrict | main.cxx:18 | for `k < g`, `k * s + s <= g * s`: stepping by `sub_steps` from 0 reaches `steps` exactly, so the decimated loops stop |
| Topology.RowMajor | main.cxx:126-127 | the row-major order of `rows x cols` cells has `rows * cols` cells |
| Topology.RowMajorAt | main.cxx:126-128 | cell (j, i) sits at position `j * cols + i` of the row-major order |
| Topology.RowMajorIndex | main.cxx:126-128 | position `k` of the row-major order holds an in-range cell whose position is `row * cols + col == k` |
| Topology.RowMajorExactlyOnce | main.cxx:126-128 | the row-major order contains every in-range cell, and no cell twice |
| Sampler.Init | main.cxx:124-129 | after the nested loops, every `grid[j, i]` holds `makePoint(min_u + step_u * i, min_v + step_v * j)`, the cells are recorded in row-major order as they are written, and the loops check that a cell not yet recorded keeps its old value |
| Matrix4.MulIdentityLeft | main.cxx:135 | the identity is a left unit of the product |
| Matrix4.MulIdentityRight | main.cxx:147 | the identity is a right unit of the product |
| Matrix4.IdentityOrthogonal | main.cxx:135 | the starting identity is orthogonal |
| Matrix4.MulAssoc | main.cxx:147 | the matrix product is associative |
| Matrix4.TransposeMul | main.cxx:147 | the transpose of a product is the product of the transposes, in reverse order |
| Matrix4.OrthogonalMul | main.cxx:147 | multiplying two orthogonal matrices gives an orthogonal matrix |
| Rotation.PairsDistinct | main.cxx:42-49 | the six pairs are six distinct planes, each with two distinct axes below 4 |
| Rotation.PlaneRotation | main.cxx:140-146 | the rotation built by four entry assignments on the identity; its shape is stated by `PlaneRotationEntries` and `PlaneRotationRows` below |
| Rotation.PlaneRotationEntries | main.cxx:140-146 | a plane rotation is the identity except (p,p) = (q,q) = c, (p,q) = s, (q,p) = -s |
| Rotation.PlaneRotationAtRest | main.cxx:140-146 | with c = 1 and s = 0 the plane rotation is the identity |
| Rotation.PlaneRotationRows | main.cxx:140-146 | the rows of a plane rotation: unit rows off the plane, (c, s) and (-s, c) on it |
| Rotation.PlaneRotationOrthogonal | main.cxx:138-146 | when c^2 + s^2 = 1 the plane rotation is orthogonal |
| Rotation.Composite | main.cxx:135-147 | the identity multiplied on the right by the rotations 0 .. k-1 in table order; characterised by `CompositeStart`, `CompositeAtRest` and `CompositeOrthogonal` below, and produced by `Demo.App.CalcRotationMatrix` |
| Rotation.CompositeStart | main.cxx:135-147 | after the first step the matrix is the first rotation itself |
| Rotation.CompositeAtRest | main.cxx:135-147 | with every angle at rest the composite is the identity |
| Rotation.CompositeOrthogonal | main.cxx:135-147 | when every (cos, sin) pair lies on the unit circle, the composite of the first k rotations is orthogonal |
| Rotation.Advance | main.cxx:148-149 | the advance keeps all six angles |
| Rotation.AdvanceAt | main.cxx:148-149 | angle k becomes `angle[k] + dt * speed[k]` when animating and stays unchanged otherwise |
| Rotation.AdvanceFrozen | main.cxx:148-149 | with animation off the angles stay put whatever `dt` is |
| Rotation.AdvanceNoTime | main.cxx:148-149 | a frame with `dt = 0` leaves the angles unchanged |
| Rotation.AdvanceAdditive | main.cxx:148-149 | advancing by t1 and then t2 is advancing by t1 + t2 |
| Render.GridPrimitives | main.cxx:153-179 | the emitted wireframe is `GridWire`: the strips for columns 0, sub_u, 2 sub_u, ..., then the loops for rows 0, sub_v, ... |
| Render.Strip | main.cxx:158-167 | a strip has `steps_v + 1` points, all in the grid |
| Render.Ring | main.cxx:171-177 | a loop has `steps_u` points, all in the grid when its row is |
| Render.GridWire | main.cxx:156-178 | the wireframe has `grid_steps_u + grid_steps_v` primitives, and every point of every one lies in the grid |
| Render.GridWireShape | main.cxx:156-178 | the wireframe has `grid_steps_u` strips of `steps_v + 1` points (strip k at column `k * sub_u`), then `grid_steps_v` loops of `steps_u` points (loop k at row `k * sub_v`) |
| Render.StripClosesOnStrip | main.cxx:164-166 | the closing point of strip k is the first point of strip `Reverse(grid_steps_u, k)` |
| Render.StripFollowsSurface | main.cxx:159-166 | each strip runs along the left edges of the quads of its column, the seam crossing included |
| Render.RingFollowsSurface | main.cxx:172-176 | each loop runs along the bottom edges of the quads of its row, wrapping from the last column to column 0 |
| Render.SurfacePrimitives | main.cxx:186-203 | the emitted quads are `SurfaceQuads`: the quad of every cell, row by row, each row left to right |
| Render.SurfaceRows | main.cxx:186-203 | the quads of `rows` rows number `rows * steps_u` |
| Render.CellQuad | main.cxx:188-201 | the four corners of the quad of an in-range cell lie in the grid, the seam row included |
| Render.CellQuadCorners | main.cxx:188-201 | the corners of each quad are in bounds. Below the last row they are (j,i), (j,i+1 mod u), (j+1,i+1 mod u) and (j+1,i). On the last row the upper two are in row 0 at the reversed columns of i+1 mod u and i |
| Render.SurfaceOrder | main.cxx:186-192 | quad k of the mesh is the quad of the cell at row-major position k |
| Render.SurfaceCount | main.cxx:186-203 | the mesh has exactly `steps_v * steps_u` quads, and the quad of cell (j, i) is at position `j * steps_u + i` |
| Render.SurfaceClosedAlongU | main.cxx:192-194 | neighbouring quads along u share an edge, also across the wrap to column 0 |
| Render.SurfaceClosedAlongV | main.cxx:188-201 | below the last row, the top edge of a quad is the bottom edge of the quad above it |
| Render.SurfaceSeam | main.cxx:195-201 | the top edge of a last-row quad is the bottom edge of the row-0 quad at the reversed column of the next column, traversed backwards |
| Input.Binding | main.cxx:70-86 | the flag each key toggles: A, G, S, X and Z one each, every other key none; `BindingInjective` states that no two keys share a flag |
| Input.BindingInjective | main.cxx:70-86 | distinct toggle keys toggle distinct flags |
| Input.Handle | main.cxx:69-90 | an A, G, S, X or Z key press negates exactly its own flag and leaves the other four unchanged; any other event changes nothing |
| Input.HandleAll | main.cxx:65-94 | the flags after handling a run of events in order; characterised by `HandleAllParity` and `HandleAllAppend` below, and produced by `Demo.App.Events` |
| Input.HandleTwice | main.cxx:72-86 | pressing the same key twice restores the flags |
| Input.HandleAllParity | main.cxx:65-94 | after a run of events, each flag is its old value, negated exactly when its key was pressed an odd number of times |
| Input.HandleAllAppend | main.cxx:65-94 | handling two runs one after the other is handling their concatenation |
| Input.FirstStop | main.cxx:87-92 | the first escape or quit event of the queue: no stop event before it, and a stop event at it unless the queue has none |
| Scene.Flag | main.cxx:218-224 | the indicator is in the given slot; it shows the first colour when the flag is set and the second when it is clear |
| Scene.IndicatorBank | main.cxx:237-241 | five indicators in slots 1 to 5, for animate, show_grid, show_surface, color_2d and color_3d; each shows its "on" colour when its flag is set and its "off" colour when it is clear |
| Scene.BankRoundTrip | main.cxx:237-241 | reading each indicator's "on" colour back gives exactly the five flags |
| Scene.GridShade | main.cxx:155-175 | the grid is depth-coloured exactly when `color_3d` is set, parameter-coloured exactly when `color_2d` is set and `color_3d` is not, and otherwise flat blue |
| Demo.App.constructor | main.cxx:39-60 | the start-up state: the initial flags (56-60), all angles zero (53), `dt` zero (54), `t_base` at the first clock reading (set by `initSDL` at main.cxx:271) and `mat` zero (the static declaration at main.cxx:131) |
| Demo.App.Events | main.cxx:62-96 | draining the queue handles the events up to the first escape or quit and returns false with the later events still queued, or handles all of them and returns true; only the five flags change |
| Demo.App.CalcRotationMatrix | main.cxx:133-151 | `mat` becomes the composite of the six rotations built from the old angles, and the angles are advanced after they are used |
| Demo.App.DrawGrid | main.cxx:153-179 | the grid pass draws `GridWire` under the current matrix, with depth colouring over parameter colouring over the flat blue |
| Demo.App.DrawSurface | main.cxx:181-204 | `mat` is scaled by `surface_scale` and the surface pass draws every quad under the scaled matrix in flat grey |
| Demo.App.Step | main.cxx:226-251 | `t_base` becomes `t_now` and `dt` the elapsed time. The frame is the indicator bank, then the grid under the composite, then the surface under the composite scaled by `surface_scale`. The grid never sees the scaling |

## Left out

- SDL and OpenGL are not modelled. This covers window and context set-up (`initSDL`, `initGL`), `glBegin`/`glEnd`/`glVertex`/`glColor`, clearing, flushing and swapping. A frame is modelled as the list of draws it issues instead.
- The `glEnd` at main.cxx:253 is not modelled. When the surface pass runs, it closes the quad batch that `drawSurface` opens at main.cxx:185 and never closes itself. When the surface pass is skipped, it has no matching `glBegin`. Either way it only affects GL state, and the model treats each pass as one closed batch.
- `glScalef(150)` at main.cxx:243 is not modelled. It only affects GL state and does not change what is drawn from which cells.
- `run` and `main` are not modelled. They alternate `events` and `step` until `events` returns false, which is a loop over the I/O of the window system.
- Scene.GridShade: the colouring modes are named, not computed. `colorize` (main.cxx:115-122) colours as a function of the vertex's cell indices, `step_u * i` and `step_v * j` without the `min_u`/`min_v` offsets, and `drawPoint` (main.cxx:108-113) from the transformed z and w. Both are trigonometry and floating point.
- Sampler.Init: the surface formula of `makePoint` (main.cxx:98-106) is not modelled. It is the parameter `makePoint`.
- Demo.App.CalcRotationMatrix: `cos` and `sin` are parameters. Orthogonality is proved for exact reals whose (cos, sin) pairs lie on the unit circle, not for the floating-point matrix.
- Reals are exact throughout. Rounding in `step_u`, in `dt * speed[k]` and in the matrix products is not modelled.
- The products `mat * grid[j][i]` are not computed. A mesh carries its matrix, and its vertices are grid cells.
- Demo.App.Step: the clock is a parameter, and its readings are unbounded integers. `SDL_GetTicks` wraps around after 2^32 milliseconds, which is not modelled.
- Demo.App.Step: a clock reading earlier than `t_base` gives a negative `dt`, which the code uses as it is. The model does the same. It does not treat negative elapsed time as zero, because the code does not.
- The pixel coordinates of the indicator squares in `quad` (main.cxx:206-216) are not modelled. Only the slot and colour of each indicator are.
- The second `rot.setIdentity()` at main.cxx:142 repeats the first and has no effect. It is modelled once.
