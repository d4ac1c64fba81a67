# Lightballs game logic in Dafny

Lightballs is an OpenGL/GLUT game. The player rides a light-cycle on a
textured floor and shoots at 20 floating spheres, aiming with a crosshair.
This project models the part of `lightballs.c` that is not drawing, and
proves properties of it:

- **The sphere pool** (`spheres.dfy` and the `Game.Scene` methods):
  - the 20 `Sphere_t` records and the `score`;
  - `spheres_init`;
  - the life cycle inside `spheres_render`: a dead sphere shrinks by 0.1, it respawns once the unsigned 32-bit tick difference exceeds 5000 ms, and any sphere above height 2 falls 0.5 per frame;
  - `calculate_distances`;
  - the preselect marking of `do_selection`, which turns OpenGL selection hit records into `selected` flags;
  - `kill_selected_object`.
- **Input and counters** (`game.dfy`):
  - `motion`: yaw and pitch, the pitch clamp, and the handlebar tri-state;
  - the state updates of `key`: the q/z pitch wrap at ±360, camera movement, the tire angle and the handlebar;
  - the frame counter of `getFPS`;
  - the light angle of `idle`;
  - the state changes of `render` and `mouse`.
- **Plane and shadow algebra** (`geometry.dfy`), over `real`:
  - `findPlane`;
  - the floor plane computed in `init`;
  - `shadowMatrix` as `glMultMatrixf` reads it (column-major).
- **The floor texture** (`floor_texture.dfy`): `makeFloorTexture` filling a 768-byte RGB image from the ASCII-art `circles` table.

The program's global variables are the fields of one class, `Game.Scene`.
The loops over `spheres[]` are methods on an `array<Sphere>`. Each method is
proved against a per-sphere step function of module `Spheres`: `LifeStep`,
`WithDistance`, `Marked` or `KillStep`. Lemmas then prove what each step
means.

### Units and inputs

Floats take part only through a few values (2.0, 50.0, 0.5, 0.1 and whole
numbers), so the model stores them in units in which they are exact:
- x and z are whole numbers;
- y is counted in halves;
- the size is counted in tenths;
- pitch, yaw and the pointer coordinates are integers;
- the distance field holds the square of the source's `distance`.

Anything outside the program is an explicit input:
- the `rand()` results;
- each `GetTickCount()` reading (`clock[i]` is the reading taken when the loop reaches sphere i);
- the selection hit buffer and hit count;
- the sine and cosine values that `key` and `render` compute.

### Where the model follows the code rather than its comments

- `calculate_distances`:
  - it negates the camera's x and z, not the sphere's;
  - it sets the camera's y to 0, but the sphere's height stays in the sum;
  - so the stored value is (x + cx)² + y² + (z + cz)² (`Spheres.DistanceFormula`).
- A respawned sphere is set to height 50. The fall check runs in the same loop iteration, so it ends that frame at 49.5.
- `kill_selected_object` does not look at `dead`: a selected sphere that is already dead is killed again and scores 100 again. Its death time is reset to the new reading, so its respawn is delayed (`Spheres.KillRestartsRespawnDelay`).
- A click in `mouse` runs its own selection pass, but the kill uses the flags left by the last preselect in `render`.
- Only `motion` clamps the pitch to [-30, 90]. The q and z keys wrap at ±360 instead, so they can move the pitch out of motion's range.
- The floor plane that `findPlane` computes from `floorVertices[1..3]` is exactly (0, 1600, 0, 0), that is, the plane y = 0.
- `spheres_init` runs before `srand(time(NULL))`. C's `rand()` then behaves as if seeded with 1, so the program gives the same sphere layout on every run. The model takes those `rand()` results as parameters of the constructor.

## Model

| member | source | states |
|---|---|---|
| FloorTexture.CirclesIsPattern | lightballs.c:125-142 | the `circles` table has 16 rows of 16 characters each |
| FloorTexture.ImageBytesAt | lightballs.c:187-203 | in the image of any table with 16-character rows, byte k of texel (t, s) sits at offset (t·16 + s)·3 + k and is channel k of that texel's colour; the image is 48 bytes per row |
| FloorTexture.FloorImageAt | lightballs.c:181-203 | the floor image is 768 bytes; the byte at (t·16 + s)·3 + k is (0x1f, 0x1f, 0xcf)[k] when `circles[t][s]` is 'x', else (0x1a, 0x1a, 0x3a)[k] |
| FloorTexture.MakeFloorTexture | lightballs.c:181-203 | the pointer loop fills a 768-byte array equal to the row-major image of the table, storing to offsets 0, 1, …, 767 in order, each exactly once |
| Geometry.DistanceSq | lightballs.c:374-388 | the squared distance is never negative and is 0 from a point to itself |
| Geometry.DistanceSymmetric | lightballs.c:374-388 | the distance does not depend on the order of the two points |
| Geometry.NormalOrthogonal | lightballs.c:287-298 | the normal (A, B, C) that findPlane computes is orthogonal to both edges v1 − v0 and v2 − v0 |
| Geometry.FindPlaneThroughPoints | lightballs.c:283-301 | the plane findPlane returns satisfies A·x + B·y + C·z + D = 0 at each of v0, v1 and v2 |
| Geometry.FloorPlaneIsGround | lightballs.c:211-216 | the plane through `floorVertices[1..3]` (as init computes it) is exactly (0, 1600, 0, 0), and all four floor corners lie on it |
| Geometry.ShadowMatrixEntries | lightballs.c:248-277 | entry [j][i] of the shadow matrix is (dot if i = j, else 0) − lightpos[i]·groundplane[j], where dot = groundplane·lightpos |
| Geometry.ColumnMajorOfFlatten | lightballs.c:861 | glMultMatrixf reading the 4×4 C array through a float pointer, column-major, sees its transpose |
| Geometry.ShadowTransform | lightballs.c:248-277 | read column-major, the shadow matrix maps p to dot·p − lightpos·(groundplane·p) |
| Geometry.ShadowLiesOnPlane | lightballs.c:248-277 | every image point of the shadow matrix lies on the ground plane |
| Geometry.ShadowFixesPlanePoints | lightballs.c:248-277 | a point already on the ground plane is only scaled by dot; when dot ≠ 0 (for the game's light and floor it is 32000, by `Game.LightPosition`) it stays the same homogeneous point |
| Geometry.FloorShadowFlattens | lightballs.c:748 | with the floor plane of init, every shadowed point has height 0, wherever the light is |
| Spheres.RandomCoordinate | lightballs.c:422 | (r mod 100) + 1 − 50 lies in [−49, 50] |
| Spheres.RandomCoordinateOnto | lightballs.c:422 | every coordinate in [−49, 50] comes from some rand() result |
| Spheres.InitialSphereState | lightballs.c:421-430 | an initialised sphere is well formed, rests at height 2 with size 2 and x, z = (r mod 100) − 49, is alive and unselected, and has death time and distance 0 |
| Spheres.Elapsed | lightballs.c:467-468 | current_time − death_time in unsigned 32-bit arithmetic: the plain difference when there is no wrap, the difference plus 2^32 across a wrap |
| Spheres.RespawnAfterDelay | lightballs.c:468 | whatever the death time, a clock that has advanced by any d with 5000 < d < 2^32 passes the respawn test, even when the tick counter wrapped in between |
| Spheres.NoRespawnBeforeDelay | lightballs.c:468 | within 5000 ms of the death time, with no wrap, the sphere does not respawn |
| Spheres.LifeStepInvariant | lightballs.c:456-508 | one frame keeps a sphere well formed (height in [2, 50], size in [0, 2]) and changes neither its x, z, selection flag, death time nor distance |
| Spheres.DeadSphereShrinks | lightballs.c:458-473 | a dead sphere whose time is not up loses 0.1 of size if it has any left, stays dead, and falls as usual |
| Spheres.RespawnedSphereFalls | lightballs.c:458-507 | a dead sphere whose time is up comes back alive at size 2 and ends the frame at height 49.5, at the same x and z |
| Spheres.LiveSphereComesToRest | lightballs.c:505-507 | after n frames a live sphere is at height max(2, y − 0.5·n), and nothing else about it has changed |
| Spheres.DeadSphereFades | lightballs.c:462-463 | while its time is not up, a dead sphere stays dead and after n frames has size max(0, size − 0.1·n) |
| Spheres.DistanceFormula | lightballs.c:404-409 | the stored distance is (x + cx)² + y² + (z + cz)²; the sphere is otherwise unchanged and stays well formed |
| Spheres.HitName | lightballs.c:631 | the name of hit record k is word 4k + 3 truncated to a GLubyte, so it is below 256 |
| Spheres.HitNamesMembership | lightballs.c:630-633 | an index is among the names of the first n records iff one of those records carries it |
| Spheres.HitNamesInRange | lightballs.c:603-612 | every name in a valid hit buffer is a sphere index of a sphere that was drawn (size ≠ 0) |
| Spheres.CountSelectedIsCardinality | lightballs.c:558-565 | the number of selected spheres the kill loop counts is the number of selected indices |
| Spheres.MarkedPool | lightballs.c:623-633 | after the marking, every selected sphere was drawn (size ≠ 0), and the number of selected spheres is the number of distinct names hit |
| Spheres.KilledPool | lightballs.c:558-565 | after the kill loop the set of dead spheres is the set dead before together with the set of selected ones, and every well-formed sphere stays well formed |
| Spheres.KillRestartsRespawnDelay | lightballs.c:560-564 | killing a selected sphere, even one already dead whose respawn was due, resets its death time to the new reading, so for 5000 ms after it (with no wrap) the life cycle keeps it dead |
| Game.ClampPitch | lightballs.c:957-963 | the clamped pitch is in [−30, 90], is p itself when p is in range, and is the in-range value closest to p |
| Game.Sign | lightballs.c:948-954 | the handlebar is 1, −1 or 0, and multiplied by the magnitude of d it gives back d |
| Game.PitchUp | lightballs.c:998-1001 | key q keeps the pitch in [−360, 360] and changes it by 1 modulo 360 |
| Game.PitchDown | lightballs.c:1002-1005 | key z keeps the pitch in [−360, 360] and changes it by −1 modulo 360 |
| Game.PitchKeysInverse | lightballs.c:998-1005 | q then z, and z then q, restore the pitch except at the wrap points ±360, where q from 360 gives 1 and z from −360 gives −1 |
| Game.PitchKeysLeaveMotionRange | lightballs.c:998-1005 | q from 90 gives 91 and z from −30 gives −31: the keys leave motion's clamp range |
| Game.KeyRanges | lightballs.c:998-1041 | any key keeps the pitch in [−360, 360] and the handlebar in {−1, 0, 1}, and only q and z change the pitch |
| Game.KeysUndo | lightballs.c:1006-1041 | w then s (at the same angles) restores the camera and tire and straightens the handlebar; d then a restores the camera and leaves the handlebar at −1 |
| Game.NextFrameCount | lightballs.c:167-174 | the counter stays in [0, 50) and resets to 0 exactly when the incremented value reaches 50 |
| Game.FrameCountIsModulo | lightballs.c:167-174 | after n frames the counter is n mod 50 |
| Game.LightPosition | lightballs.c:743-746 | wherever the light has turned, its dot product with the floor plane is 1600 · 20 = 32000, never 0 |
| Game.Scene.constructor | lightballs.c:1098-1111 | init: sphere i is built from the rand() results 2i and 2i + 1; the score and counters are 0; the camera is zeroed with radius 10; the floor plane is the one through floorVertices[1..3] |
| Game.Scene.SpheresInit | lightballs.c:417-431 | every sphere is the initial sphere of its two rand() results, and every sphere is well formed |
| Game.Scene.SpheresRender | lightballs.c:450-509 | every sphere takes exactly one life-cycle step at its own tick reading; the scene stays valid |
| Game.Scene.CalculateDistances | lightballs.c:394-411 | every sphere's distance is refreshed against the negated camera; nothing else changes |
| Game.Scene.ClearSelection | lightballs.c:624-627 | every flag is cleared and nothing else changes |
| Game.Scene.MarkSelection | lightballs.c:623-633 | sphere i ends selected exactly when i is the name of one of the first `hits` records; hits ≤ 0 leaves every sphere deselected; no other field changes |
| Game.Scene.KillSelectedObject | lightballs.c:553-566 | the score rises by exactly 100 per selected sphere; each selected sphere is dead from its tick reading on; the others are untouched |
| Game.Scene.DoSelection | lightballs.c:620-636 | in preselect mode the flags are marked from the hit records and the score is unchanged; otherwise the selected spheres are killed and scored |
| Game.Scene.Mouse | lightballs.c:921-933 | a left-button press kills and scores the spheres the last preselect marked; any other event changes nothing |
| Game.Scene.Motion | lightballs.c:938-964 | yaw grows by the horizontal move, pitch is old pitch plus the vertical move clamped to [−30, 90], the handlebar is the sign of the vertical move, and the pointer position is stored |
| Game.Scene.Key | lightballs.c:994-1048 | the pitch, camera position, tire and handlebar change as the key's branch says, nothing else changes, and Escape asks to quit |
| Game.Scene.GetFPS | lightballs.c:159-175 | the counter advances and wraps at 50; the frame rate is sampled exactly on the wrap |
| Game.Scene.Idle | lightballs.c:969-981 | the light angle grows by 0.03 unless the light is being moved |
| Game.Scene.Render | lightballs.c:735-916 | the light and shadow matrix are recomputed, and the shadow flattens every point to height 0; each sphere gets its distance, its preselect mark and one life-cycle step; the counter advances; nothing else changes |

## Left out

- Drawing (GL/GLUT): `drawFloor`, `drawbike`, `drawplayer`, `sphere_reflection`, the stencil, reflection and shadow passes of `render`, `glEnable2D`/`glDisable2D`, `glPrintf`, `draw_crosshair` and `show_player_stats`. They call a foreign API and change none of the modelled state.
- The selection pass itself (`glRenderMode`, `gluPickMatrix`). The hit records and hit count are inputs. `Spheres.ValidHits` requires at most 20 records, each naming a sphere index below 20 of a sphere with size ≠ 0, as the drawing loop at lightballs.c:603-612 guarantees. A GLubyte name of 20 or more would index past `spheres[]` in the source; the model excludes it.
- `gettimeofday`/`GetTickCount`, `clock()`, `rand()`/`srand()` and `time()`: their results are parameters.
- Window creation, the stencil-size check and the `exit` paths of `init`, `main` and `key`. Escape is modelled only as the `quit` result of `Game.Scene.Key`.
- Trigonometry: the sines and cosines in `key` and `render` are parameters (`Game.Trig`, and `cosAngle`/`sinAngle`). The degree-to-radian conversion is not modelled.
- The float `FrameRate` that `getFPS` computes. Only the counter and the moment of sampling are modelled.
- `sqrt` in `distance`: the model keeps the squared distance.
- Geometry.DistanceSq: states only that the squared distance is non-negative and 0 at equal points, not that it is positive for distinct points.
- Float rounding. Sizes are exact tenths and heights exact halves. In float32, 2.0 minus 0.1 taken twenty times need not be exactly 0.0, so the `size != 0.0f` tests at lightballs.c:476 and lightballs.c:605 may never succeed in the running program; the model treats the size as reaching 0.
- The 32-bit `int` range of `score` and the pointer arithmetic: these are unbounded integers in the model. Only the unsigned tick difference is wrapped explicitly.
- `bikeTireAngle` is a `GLfloat`; the model stores it as an unbounded integer. Its ±10 steps are exact in float32 only while the angle stays within 2^24, and the model does not capture the loss of precision beyond that.
- `camera.vecRot.z`, `bikeAngle`, `bikex/y/z`, `movement_angle`, `dist_cam_player`, `moving`, `startx/starty` and the `lightStart` coordinates: nothing in the program updates them.
- The texture upload (`gluBuild2DMipmaps`) in `makeFloorTexture`.
- FloorTexture.MakeFloorTexture: takes the pattern table as a parameter rather than reading the `circles` constant. `FloorTexture.FloorImageAt` states the resulting bytes for `circles` itself.
- Game.Scene.constructor: does not state the value (0, 1600, 0, 0) of the floor plane directly. It states `floorPlane == FloorPlane()`, and `Geometry.FloorPlaneIsGround` gives that value.
- Game.Scene.MarkSelection: states the new flags through `Spheres.Marked`. That only drawn spheres end up selected, and how many, follow from it by `Spheres.MarkedPool`.
